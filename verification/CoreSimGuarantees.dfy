/** What callers are promised in every reachable state: answers, histories, and an end to waiting. */
module CoreSimGuarantees {
  import opened CoreSimTables
  import opened CoreSimStore

  lemma Reachable(policies: set<string>, es: seq<Event>)
    requires Possible(Start(policies), es)
    ensures Inv(Execute(Start(policies), es))
  {
    ExecuteKeepsInv(Start(policies), es);
  }

  /** The re-read after a unique violation finds the other attempt's record, so nothing is re-raised;
      a success is the response its key remembers, verbatim, and a key-reuse refusal means the key
      remembers another request. */
  lemma AnswersComeFromTheKey(policies: set<string>, es: seq<Event>, i: nat)
    requires Possible(Start(policies), es) && i < |Execute(Start(policies), es).attempts|
    ensures var s := Execute(Start(policies), es);
            var a := s.attempts[i];
            && !a.phase.Raised?
            && (a.phase.Rereading? ==> a.key in s.tables.keys)
            && (a.phase.Answered? && a.phase.answer.Replied? ==>
                  a.key in s.tables.keys && s.tables.keys[a.key]
                    == Remembered(RequestFingerprint(a.operation), a.phase.answer.response))
            && (a.phase == Answered(Refused(IdempotencyKeyReuse)) ==>
                  a.key in s.tables.keys && s.tables.keys[a.key].fingerprint.canonical != a.operation)
  {
    Reachable(policies, es);
    assert KeyedRight(Execute(Start(policies), es), i);
  }

  /** No status update is lost or doubled: a claim stands where its history ends, and its history is the
      first transition and one more for each distinct committed status key. */
  lemma NoUpdateLostOrDoubled(policies: set<string>, es: seq<Event>, c: Uuid)
    requires Possible(Start(policies), es) && c in Execute(Start(policies), es).tables.claims
    ensures var t := Execute(Start(policies), es).tables;
            var claim := t.claims[c];
            && |claim.history| == 1 + |StatusKeys(t, c)|
            && claim.status == claim.history[|claim.history| - 1].status
            && |CreateKeys(t, c)| == 1
  {
    Reachable(policies, es);
    assert AccountedClaim(Execute(Start(policies), es).tables, c);
  }

  /** In every reachable state a claim is on a seeded policy, and documents and parties are of a claim held. */
  lemma NoRowIsOrphaned(policies: set<string>, es: seq<Event>)
    requires Possible(Start(policies), es)
    ensures var t := Execute(Start(policies), es).tables;
            && t.policies == policies
            && (forall c :: c in t.claims ==> t.claims[c].policyNumber in policies)
            && (forall d :: d in t.documents ==> t.documents[d].claimId in t.claims)
            && (forall p :: p in t.parties ==> t.parties[p].claimId in t.claims)
  {
    Reachable(policies, es);
    CommittedOnlyGrows(Start(policies), es);
    hide AccountedClaim, TraceableKey, SeparateTransitions, Current, KeyedRight, Apart;
  }

  lemma StepGrows(s: System, e: Event)
    requires Inv(s) && Enabled(s, e)
    ensures Grows(s.tables, Step(s, e).tables)
  {
    hide Accounted, Apart;
    if e.Commit? {
      CommitIsOnce(s, e.i);
      OnceGrows(s.tables, CallOf(s, e.i));
    }
  }

  /** Committed rows stay, committed keys keep their answer, and histories are only appended to. */
  lemma {:induction false} CommittedOnlyGrows(s: System, es: seq<Event>)
    requires Inv(s) && Possible(s, es)
    ensures Grows(s.tables, Execute(s, es).tables)
    decreases |es|
  {
    if es != [] {
      StepGrows(s, es[0]);
      StepKeepsInv(s, es[0]);
      CommittedOnlyGrows(Step(s, es[0]), es[1..]);
    }
  }

  // ---------------------------------------------------------------- nobody waits forever

  function Remaining(a: Attempt): nat {
    match a.phase
    case Reading => 4
    case Performing => 3
    case Tentative(_, _, _) => 2
    case KeyInserted(_, _, _) => 1
    case Rereading => 1
    case _ => 0
  }

  function TotalRemaining(attempts: seq<Attempt>): nat {
    if attempts == [] then 0 else Remaining(attempts[0]) + TotalRemaining(attempts[1..])
  }

  lemma {:induction false} TotalAfter(attempts: seq<Attempt>, i: nat, a: Attempt)
    requires i < |attempts|
    ensures TotalRemaining(attempts[i := a]) + Remaining(attempts[i])
         == TotalRemaining(attempts) + Remaining(a)
  {
    if i == 0 {
      assert attempts[0 := a][1..] == attempts[1..];
    } else {
      assert attempts[i := a][1..] == attempts[1..][i - 1 := a];
      TotalAfter(attempts[1..], i - 1, a);
    }
  }

  /** A step of an attempt's own: not a new attempt, and not a crash. */
  predicate Works(e: Event) {
    !e.Begin? && !e.Crash?
  }

  /** Every step takes its own attempt strictly nearer its end, at most four in all, and moves no other. */
  lemma StepsAreBounded(s: System, e: Event)
    requires Enabled(s, e) && Works(e)
    ensures e.i < |s.attempts| == |Step(s, e).attempts|
    ensures Remaining(Step(s, e).attempts[e.i]) < Remaining(s.attempts[e.i]) <= 4
    ensures forall j :: 0 <= j < |s.attempts| && j != e.i ==> Step(s, e).attempts[j] == s.attempts[j]
  {
  }

  predicate HoldsRows(a: Attempt) {
    a.phase.Tentative? || a.phase.KeyInserted?
  }

  /** What an attempt waits for, and nothing else: the rows of a write on an existing claim wait exactly for an
      open write on the same claim, if one of the two records a status; a new claim waits for nobody; and a key
      waits exactly for an uncommitted insert of the same key. */
  lemma WaitsExactlyFor(s: System, i: nat)
    requires i < |s.attempts|
    ensures s.attempts[i].phase.Performing? ==>
      ((exists id, now :: Enabled(s, PerformRows(i, id, now))) <==>
       var operation := s.attempts[i].operation;
       operation.CreateClaim? || operation.claimId !in s.tables.claims
       || forall j :: 0 <= j < |s.attempts| && j != i && HoldsRows(s.attempts[j]) ==>
            var other := s.attempts[j].operation;
            other.CreateClaim? || other.claimId != operation.claimId
            || (!operation.RecordStatus? && !other.RecordStatus?))
    ensures s.attempts[i].phase.Tentative? ==>
      (Enabled(s, InsertKey(i)) <==>
       s.attempts[i].key in s.tables.keys
       || forall j :: 0 <= j < |s.attempts| && j != i && s.attempts[j].phase.KeyInserted? ==>
            s.attempts[j].key != s.attempts[i].key)
  {
    if s.attempts[i].phase.Performing? {
      var id := SomeDrawable(s);
      var operation := s.attempts[i].operation;
      assert RowBlocked(s, i) <==> exists j :: 0 <= j < |s.attempts| && j != i && HoldsRows(s.attempts[j])
                                     && Excludes(operation, s.attempts[j].operation);
      RefusedWhateverIsDrawn(s.tables, operation);
      hide Perform, RowBlocked;
      assert Enabled(s, PerformRows(i, id, 0)) || RowBlocked(s, i);
    }
  }

  lemma RefusedWhateverIsDrawn(t: Tables, operation: Operation)
    ensures !operation.CreateClaim? ==>
      forall id, now :: Perform(t, operation, id, now).Refused? <==> operation.claimId !in t.claims
  {
  }

  lemma SomeDrawable(s: System) returns (id: Uuid)
    ensures Drawable(s, id)
  {
    var drawn := set j | 0 <= j < |s.attempts| && Holding(s.attempts[j]) :: s.attempts[j].phase.id;
    id := Above(s.tables.claims.Keys + s.tables.documents.Keys + s.tables.parties.Keys + drawn);
    forall j | 0 <= j < |s.attempts| && Holding(s.attempts[j]) ensures s.attempts[j].phase.id != id {
      assert s.attempts[j].phase.id in drawn;
    }
  }

  /** Locks are taken rows first and key last, and a key's holder waits for nothing; so among any
      unfinished attempts one can always take its next step. */
  lemma NeverStuck(s: System, i: nat) returns (e: Event)
    requires i < |s.attempts| && !Finished(s.attempts[i])
    ensures Enabled(s, e) && Works(e)
  {
    if j :| 0 <= j < |s.attempts| && s.attempts[j].phase.KeyInserted? {
      e := Commit(j);
    } else if j :| 0 <= j < |s.attempts| && s.attempts[j].phase.Tentative? {
      e := InsertKey(j);
    } else if s.attempts[i].phase.Performing? {
      var id := SomeDrawable(s);
      e := PerformRows(i, id, 0);
    } else {
      e := if s.attempts[i].phase.Reading? then Remember(i) else Reread(i);
    }
  }

  /** From any state every attempt can be brought to its end without one of them crashing, in at most
      four steps each. */
  lemma {:induction false} EveryoneCanFinish(s: System) returns (es: seq<Event>)
    ensures Possible(s, es) && (forall e :: e in es ==> Works(e))
    ensures |es| <= TotalRemaining(s.attempts) && |Execute(s, es).attempts| == |s.attempts|
    ensures forall j :: 0 <= j < |s.attempts| ==>
      Finished(Execute(s, es).attempts[j])
      && (Execute(s, es).attempts[j].phase.Lost? ==> s.attempts[j].phase.Lost?)
    decreases TotalRemaining(s.attempts)
  {
    if i :| 0 <= i < |s.attempts| && !Finished(s.attempts[i]) {
      var e := NeverStuck(s, i);
      StepsAreBounded(s, e);
      var next := Step(s, e);
      assert next.attempts == s.attempts[e.i := next.attempts[e.i]];
      TotalAfter(s.attempts, e.i, next.attempts[e.i]);
      var rest := EveryoneCanFinish(next);
      es := [e] + rest;
      assert es[1..] == rest;
    } else {
      es := [];
    }
  }
}
