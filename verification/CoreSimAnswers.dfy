/** Who is answered what, and what each call leaves in the tables, spelled out row by row: first along a
    serial run of the atomic store, then for the attempts of any interleaving. */
module CoreSimAnswers {
  import opened CoreSimTables
  import opened CoreSimStore
  import opened CoreSimLinear
  import opened CoreSimGuarantees

  // ---------------------------------------------------------------- calls under a key not used yet

  lemma AfterIsOnce(t: Tables, calls: seq<Call>, n: nat)
    requires n < |calls|
    ensures Run(t, calls[..n + 1]) == Once(Run(t, calls[..n]), calls[n]).0
  {
    assert calls[..n + 1] == calls[..n] + [calls[n]];
    RunSnoc(t, calls[..n], calls[n]);
  }

  lemma {:induction false} PoliciesStay(t: Tables, calls: seq<Call>)
    ensures Run(t, calls).policies == t.policies
    decreases |calls|
  {
    if calls != [] {
      PoliciesStay(Once(t, calls[0]).0, calls[1..]);
    }
  }

  /** Refused for its policy is exactly a claim on a policy that was not seeded, refused for its claim exactly
      another write on a claim not in the tables; nobody else is refused, and a refusal writes nothing. */
  lemma WhoIsRefused(t: Tables, calls: seq<Call>, n: nat)
    requires n < |calls| && calls[n].key !in Run(t, calls[..n]).keys
    ensures var operation, answer := calls[n].operation, AnswerAt(t, calls, n);
            && (answer == Refused(PolicyNotFound) <==>
                  operation.CreateClaim? && operation.policyNumber !in t.policies)
            && (answer == Refused(ClaimNotFound) <==>
                  !operation.CreateClaim? && operation.claimId !in Run(t, calls[..n]).claims)
            && answer != Refused(IdempotencyKeyReuse)
            && (answer.Refused? ==> Run(t, calls[..n + 1]) == Run(t, calls[..n]))
  {
    AfterIsOnce(t, calls, n);
    PoliciesStay(t, calls[..n]);
    OnceRefuses(Run(t, calls[..n]), calls[n]);
    hide Run, Once;
  }

  lemma OnceRefuses(t: Tables, call: Call)
    requires call.key !in t.keys
    ensures var (after, answer) := Once(t, call);
            && (answer == Refused(PolicyNotFound) <==>
                  call.operation.CreateClaim? && call.operation.policyNumber !in t.policies)
            && (answer == Refused(ClaimNotFound) <==>
                  !call.operation.CreateClaim? && call.operation.claimId !in t.claims)
            && answer != Refused(IdempotencyKeyReuse)
            && (answer.Refused? ==> after == t)
  {
  }

  /** A new claim stands at received with that one transition, and its key remembers it. */
  lemma WhatCreatingLeaves(t: Tables, calls: seq<Call>, n: nat, policy: string, incident: int, amount: int)
    requires n < |calls| && calls[n].key !in Run(t, calls[..n]).keys
    requires calls[n].operation == CreateClaim(policy, incident, amount) && policy in t.policies
    ensures var call, before, after := calls[n], Run(t, calls[..n]), Run(t, calls[..n + 1]);
            var claim := Claim(policy, incident, amount, Received, [Transition(Received, call.now)]);
            var remembered := Remembered(Sha256(call.operation), ClaimHeld(call.id, claim));
            && AnswerAt(t, calls, n) == Replied(ClaimHeld(call.id, claim))
            && after.claims == before.claims[call.id := claim]
            && after.keys == before.keys[call.key := remembered]
            && after.documents == before.documents && after.parties == before.parties
  {
    AfterIsOnce(t, calls, n);
    PoliciesStay(t, calls[..n]);
    hide Run;
  }

  /** A recorded status moves its claim there, one transition longer, and leaves the rest of it alone. */
  lemma WhatRecordingLeaves(t: Tables, calls: seq<Call>, n: nat, c: Uuid, status: ClaimStatus)
    requires n < |calls| && calls[n].key !in Run(t, calls[..n]).keys
    requires calls[n].operation == RecordStatus(c, status) && c in Run(t, calls[..n]).claims
    ensures var call, before, after := calls[n], Run(t, calls[..n]), Run(t, calls[..n + 1]);
            var was := before.claims[c];
            var claim := Claim(was.policyNumber, was.incidentDate, was.amountCents, status,
                               was.history + [Transition(status, call.now)]);
            var remembered := Remembered(Sha256(call.operation), ClaimHeld(c, claim));
            && AnswerAt(t, calls, n) == Replied(ClaimHeld(c, claim))
            && after.claims == before.claims[c := claim]
            && after.keys == before.keys[call.key := remembered]
            && after.documents == before.documents && after.parties == before.parties
  {
    AfterIsOnce(t, calls, n);
    hide Run;
  }

  lemma WhatAttachingLeaves(t: Tables, calls: seq<Call>, n: nat, c: Uuid, documentType: string, filename: string)
    requires n < |calls| && calls[n].key !in Run(t, calls[..n]).keys
    requires calls[n].operation == AttachDocument(c, documentType, filename) && c in Run(t, calls[..n]).claims
    ensures var call, before, after := calls[n], Run(t, calls[..n]), Run(t, calls[..n + 1]);
            var document := Document(c, documentType, filename, call.now);
            var remembered := Remembered(Sha256(call.operation), DocumentHeld(call.id, document));
            && AnswerAt(t, calls, n) == Replied(DocumentHeld(call.id, document))
            && after.documents == before.documents[call.id := document]
            && after.keys == before.keys[call.key := remembered]
            && after.claims == before.claims && after.parties == before.parties
  {
    AfterIsOnce(t, calls, n);
    hide Run;
  }

  lemma WhatAPartyLeaves(t: Tables, calls: seq<Call>, n: nat, c: Uuid, role: PartyRole)
    requires n < |calls| && calls[n].key !in Run(t, calls[..n]).keys
    requires calls[n].operation == RecordParty(c, role) && c in Run(t, calls[..n]).claims
    ensures var call, before, after := calls[n], Run(t, calls[..n]), Run(t, calls[..n + 1]);
            var party := Party(c, role, call.now);
            var remembered := Remembered(Sha256(call.operation), PartyHeld(call.id, party));
            && AnswerAt(t, calls, n) == Replied(PartyHeld(call.id, party))
            && after.parties == before.parties[call.id := party]
            && after.keys == before.keys[call.key := remembered]
            && after.claims == before.claims && after.documents == before.documents
  {
    AfterIsOnce(t, calls, n);
    hide Run;
  }

  // ---------------------------------------------------------------- answers out of earlier answers

  /** The m-th call was a success under this key. */
  ghost predicate Succeeded(t: Tables, calls: seq<Call>, m: nat, key: Key)
    requires m < |calls|
  {
    calls[m].key == key && AnswerAt(t, calls, m).Replied?
  }

  /** The m-th call was a success that created this claim, or replayed its creation. */
  ghost predicate Created(t: Tables, calls: seq<Call>, m: nat, c: Uuid)
    requires m < |calls|
  {
    calls[m].operation.CreateClaim? && AnswerAt(t, calls, m).Replied? && AnswerAt(t, calls, m).response.id == c
  }

  /** A key is remembered exactly when an earlier call under it succeeded. */
  lemma UsedExactlyAfterSuccess(policies: set<string>, calls: seq<Call>, n: nat, key: Key)
    requires n <= |calls| && AllDrawFresh(Seeded(policies), calls)
    ensures key in Run(Seeded(policies), calls[..n]).keys
      <==> exists m :: 0 <= m < n && Succeeded(Seeded(policies), calls, m, key)
  {
    var t := Seeded(policies);
    if key in Run(t, calls[..n]).keys {
      var m := EffectOf(t, calls[..n], key);
      assert calls[..n][..m] == calls[..m];
      assert Succeeded(t, calls, m, key);
    }
    forall m | 0 <= m < n && Succeeded(t, calls, m, key) ensures key in Run(t, calls[..n]).keys {
      AfterIsOnce(t, calls, m);
      RunGrows(t, calls, m + 1, n);
    }
  }

  /** The call that wrote under a key, among the first n. */
  lemma WrittenBy(policies: set<string>, calls: seq<Call>, n: nat, key: Key) returns (m: nat)
    requires n <= |calls| && key in Run(Seeded(policies), calls[..n]).keys
    ensures m < n && Succeeded(Seeded(policies), calls, m, key)
    ensures Run(Seeded(policies), calls[..n]).keys[key]
         == Remembered(Sha256(calls[m].operation), AnswerAt(Seeded(policies), calls, m).response)
  {
    m := EffectOf(Seeded(policies), calls[..n], key);
    assert calls[..n][..m] == calls[..m];
  }

  lemma SeededAccounts(policies: set<string>)
    ensures Accounted(Seeded(policies))
  {
  }

  /** A claim is in the tables exactly when an earlier call was answered with its creation. */
  lemma HeldExactlyAfterCreation(policies: set<string>, calls: seq<Call>, n: nat, c: Uuid)
    requires n <= |calls| && AllDrawFresh(Seeded(policies), calls)
    ensures c in Run(Seeded(policies), calls[..n]).claims
      <==> exists m :: 0 <= m < n && Created(Seeded(policies), calls, m, c)
  {
    var t := Seeded(policies);
    SeededAccounts(policies);
    if c in Run(t, calls[..n]).claims {
      RunAccounts(t, calls, n);
      var key := CreatingKey(Run(t, calls[..n]), c);
      var m := WrittenBy(policies, calls, n, key);
      assert Created(t, calls, m, c);
    }
    forall m | 0 <= m < n && Created(t, calls, m, c) ensures c in Run(t, calls[..n]).claims {
      RunAccounts(t, calls, m + 1);
      CreatedIsHeld(t, calls, m, c);
      RunGrows(t, calls, m + 1, n);
    }
  }

  lemma CreatingKey(t: Tables, c: Uuid) returns (key: Key)
    requires Accounted(t) && c in t.claims
    ensures key in CreateKeys(t, c)
  {
    hide CreateKeys;
    assert AccountedClaim(t, c);
    key :| key in CreateKeys(t, c);
  }

  lemma CreatedIsHeld(t: Tables, calls: seq<Call>, m: nat, c: Uuid)
    requires m < |calls| && Created(t, calls, m, c) && Accounted(Run(t, calls[..m + 1]))
    ensures c in Run(t, calls[..m + 1]).claims
  {
    var key, after := calls[m].key, Run(t, calls[..m + 1]);
    AfterIsOnce(t, calls, m);
    hide Run;
    assert key in after.keys && after.keys[key].response.id == c;
    assert after.keys[key].fingerprint.canonical.CreateClaim?;
    assert TraceableKey(after, key);
  }

  /** What the n-th call has to be answered, by what the calls before it were answered. */
  ghost predicate AnsweredByHistory(policies: set<string>, calls: seq<Call>, n: nat)
    requires n < |calls|
  {
    var t, call, answer := Seeded(policies), calls[n], AnswerAt(Seeded(policies), calls, n);
    if exists m :: 0 <= m < n && Succeeded(t, calls, m, call.key) then
      forall m :: 0 <= m < n && Succeeded(t, calls, m, call.key) ==>
        answer == if calls[m].operation == call.operation then AnswerAt(t, calls, m)
                  else Refused(IdempotencyKeyReuse)
    else
      && (answer == Refused(PolicyNotFound) <==>
            call.operation.CreateClaim? && call.operation.policyNumber !in policies)
      && (answer == Refused(ClaimNotFound) <==>
            !call.operation.CreateClaim? && !exists m :: 0 <= m < n && Created(t, calls, m, call.operation.claimId))
      && answer != Refused(IdempotencyKeyReuse)
  }

  /** Any success under a key was the call that wrote it, or the same request answered the same. */
  lemma SuccessesAgree(policies: set<string>, calls: seq<Call>, m: nat, n: nat)
    requires m < n <= |calls| && AllDrawFresh(Seeded(policies), calls)
    requires Succeeded(Seeded(policies), calls, m, calls[m].key)
    ensures var keys := Run(Seeded(policies), calls[..n]).keys;
            && calls[m].key in keys
            && keys[calls[m].key]
            == Remembered(Sha256(calls[m].operation), AnswerAt(Seeded(policies), calls, m).response)
  {
    var t := Seeded(policies);
    AfterIsOnce(t, calls, m);
    RunGrows(t, calls, m + 1, n);
    hide Run;
  }

  /** Every answer of a serial run follows from the answers before it: the first success under a key is
      repeated to its own request and refused to any other, and until then only an unknown policy or a claim
      nobody was answered with is refused. */
  lemma AnswersFollow(policies: set<string>, calls: seq<Call>, n: nat)
    requires n < |calls| && AllDrawFresh(Seeded(policies), calls)
    ensures AnsweredByHistory(policies, calls, n)
  {
    var t, key := Seeded(policies), calls[n].key;
    UsedExactlyAfterSuccess(policies, calls, n, key);
    if key in Run(t, calls[..n]).keys {
      hide Run, AllDrawFresh;
      forall m | 0 <= m < n && Succeeded(t, calls, m, key)
        ensures AnswerAt(t, calls, n) == if calls[m].operation == calls[n].operation then AnswerAt(t, calls, m)
                                         else Refused(IdempotencyKeyReuse)
      {
        SuccessesAgree(policies, calls, m, n);
      }
    } else {
      WhoIsRefused(t, calls, n);
      if !calls[n].operation.CreateClaim? {
        HeldExactlyAfterCreation(policies, calls, n, calls[n].operation.claimId);
      }
      hide Run, AllDrawFresh, Created, AnswerAt;
    }
  }

  /** Replays included, no claim is ever answered on a policy that was not seeded, and every other answer to
      such a request is a refusal. */
  lemma {:induction false} PolicyRefusals(policies: set<string>, calls: seq<Call>, n: nat)
    requires n < |calls| && AllDrawFresh(Seeded(policies), calls)
    ensures var (operation, answer) := (calls[n].operation, AnswerAt(Seeded(policies), calls, n));
            && (answer != Refused(IdempotencyKeyReuse) ==>
                  (answer == Refused(PolicyNotFound) <==>
                     operation.CreateClaim? && operation.policyNumber !in policies))
            && (answer == Refused(ClaimNotFound) ==> !operation.CreateClaim?)
    decreases n
  {
    AnswersFollow(policies, calls, n);
    hide AllDrawFresh, AnswerAt;
    if m :| 0 <= m < n && Succeeded(Seeded(policies), calls, m, calls[n].key) {
      if calls[m].operation == calls[n].operation {
        PolicyRefusals(policies, calls, m);
      }
    }
  }

  // ---------------------------------------------------------------- the attempts of any interleaving

  /** The statement that performs an attempt's write refuses exactly the unknown policy and the unknown claim
      among the rows committed by then, and otherwise holds the row that was asked for; it commits nothing. */
  lemma WhatPerformingAnswers(s: System, i: nat, id: Uuid, now: int)
    requires Enabled(s, PerformRows(i, id, now))
    ensures var (u, operation) := (Step(s, PerformRows(i, id, now)), s.attempts[i].operation);
            var phase := u.attempts[i].phase;
            && u.tables == s.tables
            && (phase == Answered(Refused(PolicyNotFound)) <==>
                  operation.CreateClaim? && operation.policyNumber !in s.tables.policies)
            && (phase == Answered(Refused(ClaimNotFound)) <==>
                  !operation.CreateClaim? && operation.claimId !in s.tables.claims)
            && (!phase.Answered? ==>
                  && phase == Tentative(id, now, phase.response)
                  && RowWritten(s.tables, operation, phase.response, id, now))
  {
  }

  /** The row a write holds: the arguments as they were given, with the identifier and the instant it drew. */
  ghost predicate RowWritten(t: Tables, operation: Operation, response: Response, id: Uuid, now: int) {
    match operation
    case CreateClaim(policy, incident, amount) =>
      response == ClaimHeld(id, Claim(policy, incident, amount, Received, [Transition(Received, now)]))
    case RecordStatus(c, status) =>
      c in t.claims
      && response == ClaimHeld(c, Claim(t.claims[c].policyNumber, t.claims[c].incidentDate, t.claims[c].amountCents,
                                        status, t.claims[c].history + [Transition(status, now)]))
    case AttachDocument(c, documentType, filename) =>
      response == DocumentHeld(id, Document(c, documentType, filename, now))
    case RecordParty(c, role) =>
      response == PartyHeld(id, Party(c, role, now))
  }

  /** In any interleaving the answered attempts can be put in one order, never against real time, in which
      each one's answer is the answer its predecessors' answers call for. */
  lemma AttemptsAreAnsweredByHistory(policies: set<string>, es: seq<Event>) returns (calls: seq<Call>)
    requires Possible(Start(policies), es)
    ensures var s := Execute(Start(policies), es);
            && Linearizes(Seeded(policies), calls, s) && AllDrawFresh(Seeded(policies), calls)
            && (forall i :: 0 <= i < |s.attempts| && s.attempts[i].phase.Answered? ==>
                  exists n :: 0 <= n < |calls| && Tells(policies, calls, n, s.attempts[i], i))
  {
    var s := Execute(Start(policies), es);
    Linearizable(policies, es);
    calls :| Linearizes(Seeded(policies), calls, s);
    ExplainedDrawFresh(Seeded(policies), calls, s);
    forall i | 0 <= i < |s.attempts| && s.attempts[i].phase.Answered?
      ensures exists n :: 0 <= n < |calls| && Tells(policies, calls, n, s.attempts[i], i)
    {
      hide AnsweredByHistory, AllDrawFresh, DrawsFresh, Run;
      assert i in Attempts(calls);
      var n :| 0 <= n < |calls| && calls[n].attempt == i;
      assert Explains(Seeded(policies), calls, n, s.attempts);
      AnswersFollow(policies, calls, n);
      assert Tells(policies, calls, n, s.attempts[i], i);
    }
  }

  /** The n-th call is this attempt's, with its answer, and the answer follows from those before it. */
  ghost predicate Tells(policies: set<string>, calls: seq<Call>, n: nat, a: Attempt, i: nat)
    requires n < |calls|
  {
    && calls[n].attempt == i && calls[n].key == a.key && calls[n].operation == a.operation
    && a.phase == Answered(AnswerAt(Seeded(policies), calls, n))
    && AnsweredByHistory(policies, calls, n)
  }

  /** So in every reachable state: an attempt at a claim on an unseeded policy that was answered was refused, a
      known policy is never called unknown, and whoever succeeded with another write finds its claim there. */
  lemma AttemptsAreRefusedRightly(policies: set<string>, es: seq<Event>, i: nat)
    requires Possible(Start(policies), es) && i < |Execute(Start(policies), es).attempts|
    requires Execute(Start(policies), es).attempts[i].phase.Answered?
    ensures var s := Execute(Start(policies), es);
            var (operation, answer) := (s.attempts[i].operation, s.attempts[i].phase.answer);
            && (answer != Refused(IdempotencyKeyReuse) ==>
                  (answer == Refused(PolicyNotFound) <==>
                     operation.CreateClaim? && operation.policyNumber !in policies))
            && (answer == Refused(ClaimNotFound) ==> !operation.CreateClaim?)
            && (answer.Replied? && !operation.CreateClaim? ==> operation.claimId in s.tables.claims)
            && (answer.Replied? ==> IsRowOf(operation, answer.response))
  {
    hide IsRowOf, TraceableKey;
    AttemptIsRefusedRightly(policies, es, i);
    if Execute(Start(policies), es).attempts[i].phase.answer.Replied? {
      AnswersComeFromTheKey(policies, es, i);
      Reachable(policies, es);
      assert TraceableKey(Execute(Start(policies), es).tables, Execute(Start(policies), es).attempts[i].key);
      hide Inv;
      RememberedRow(Execute(Start(policies), es).tables, Execute(Start(policies), es).attempts[i].key);
    }
  }

  lemma RememberedRow(t: Tables, k: Key)
    requires k in t.keys && TraceableKey(t, k)
    ensures var (operation, response) := (t.keys[k].fingerprint.canonical, t.keys[k].response);
            IsRowOf(operation, response) && (!operation.CreateClaim? ==> operation.claimId in t.claims)
  {
  }

  /** A reply is a row of the kind that was asked for, about what was asked for. */
  ghost predicate IsRowOf(operation: Operation, response: Response) {
    match operation
    case CreateClaim(policy, incident, amount) =>
      && response.ClaimHeld? && response.claim.policyNumber == policy
      && response.claim.incidentDate == incident && response.claim.amountCents == amount
      && response.claim.status == Received && |response.claim.history| == 1
    case RecordStatus(c, status) =>
      && response.ClaimHeld? && response.id == c && response.claim.status == status
      && |response.claim.history| > 1
      && response.claim.history[|response.claim.history| - 1].status == status
    case AttachDocument(c, documentType, filename) =>
      && response.DocumentHeld? && response.document.claimId == c
      && response.document.documentType == documentType && response.document.filename == filename
    case RecordParty(c, role) =>
      response.PartyHeld? && response.party.claimId == c && response.party.role == role
  }

  lemma AttemptIsRefusedRightly(policies: set<string>, es: seq<Event>, i: nat)
    requires Possible(Start(policies), es) && i < |Execute(Start(policies), es).attempts|
    requires Execute(Start(policies), es).attempts[i].phase.Answered?
    ensures var a := Execute(Start(policies), es).attempts[i];
            && (a.phase.answer != Refused(IdempotencyKeyReuse) ==>
                  (a.phase.answer == Refused(PolicyNotFound) <==>
                     a.operation.CreateClaim? && a.operation.policyNumber !in policies))
            && (a.phase.answer == Refused(ClaimNotFound) ==> !a.operation.CreateClaim?)
  {
    var calls := AttemptsAreAnsweredByHistory(policies, es);
    var a := Execute(Start(policies), es).attempts[i];
    hide Linearizes, AllDrawFresh;
    var n :| 0 <= n < |calls| && Tells(policies, calls, n, a, i);
    PolicyRefusals(policies, calls, n);
    hide AnsweredByHistory, AnswerAt;
  }

  // ---------------------------------------------------------------- real time

  /** Who was answered stays answered, and every attempt begun since knows that it was. */
  ghost predicate FollowsOn(before: System, s: System) {
    && |before.attempts| <= |s.attempts|
    && AnsweredBy(before.attempts) <= AnsweredBy(s.attempts)
    && forall j :: |before.attempts| <= j < |s.attempts| ==> AnsweredBy(before.attempts) <= s.attempts[j].earlier
  }

  lemma StepFollowsOn(before: System, s: System, e: Event)
    requires FollowsOn(before, s) && Enabled(s, e)
    ensures FollowsOn(before, Step(s, e))
  {
    hide Perform, Written, WithKey;
    forall i | i in AnsweredBy(s.attempts) ensures i in AnsweredBy(Step(s, e).attempts) {
    }
  }

  lemma {:induction false} ExecuteFollowsOn(before: System, s: System, es: seq<Event>)
    requires FollowsOn(before, s) && Possible(s, es)
    ensures FollowsOn(before, Execute(s, es))
    decreases |es|
  {
    hide FollowsOn, Enabled, Step;
    if es != [] {
      StepFollowsOn(before, s, es[0]);
      ExecuteFollowsOn(before, Step(s, es[0]), es[1..]);
    }
  }

  lemma {:induction false} Resumed(s: System, es: seq<Event>, more: seq<Event>)
    requires Possible(s, es + more)
    ensures Possible(s, es) && Possible(Execute(s, es), more)
    ensures Execute(s, es + more) == Execute(Execute(s, es), more)
    decreases |es|
  {
    hide Enabled, Step;
    if es == [] {
      assert es + more == more;
    } else {
      assert (es + more)[1..] == es[1..] + more;
      Resumed(Step(s, es[0]), es[1..], more);
    }
  }

  /** The serial order keeps real time: a call answered by some moment of the run comes before any call that was only
      begun after that moment. */
  lemma SerialOrderIsRealTime(policies: set<string>, es: seq<Event>, more: seq<Event>, calls: seq<Call>, m: nat,
                              n: nat)
    requires Possible(Start(policies), es) && Possible(Start(policies), es + more)
    requires Linearizes(Seeded(policies), calls, Execute(Start(policies), es + more)) && m < |calls| && n < |calls|
    requires calls[m].attempt < |Execute(Start(policies), es).attempts| <= calls[n].attempt
    requires Execute(Start(policies), es).attempts[calls[m].attempt].phase.Answered?
    ensures m < n
  {
    Resumed(Start(policies), es, more);
    var before, s := Execute(Start(policies), es), Execute(Start(policies), es + more);
    ExecuteFollowsOn(before, before, more);
    assert Explains(Seeded(policies), calls, n, s.attempts);
    assert calls[m].attempt in AnsweredBy(before.attempts);
    var k :| 0 <= k < n && calls[k].attempt == calls[m].attempt;
  }
}
