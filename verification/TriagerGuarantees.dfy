/** What an auditor finds in every reachable state, and what a failed emission leaves behind. */
module TriagerGuarantees {
  import opened CoreSimTables
  import opened Audit
  import opened Triager

  /** What an entry says of a run, field by field, in the name of the graph's one node. */
  ghost predicate SaysOf(content: Content, run: TriageRun) {
    && content.runId == run.runId
    && content.claimId == run.claimId
    && content.status == run.status
    && content.guardVerdicts == run.guardVerdicts
    && content.experiment == run.experiment
    && content.variant == run.variant
    && content.traceId == run.traceId
    && content.recordedAt == run.completedAt
    && content.node == "noop"
    && content.actor == Agent
  }

  /** Under any interleaving, crash or retry the committed log verifies, is numbered 1..n, and pairs off
      with the committed runs: one entry for each run, saying what that run says. */
  lemma TheLogIsTheEvidence(b: Build, policies: set<string>, es: seq<Event>)
    requires Possible(b, Start(policies), es)
    ensures var w := Execute(b, Start(policies), es);
            && Verifies(b.digest, w.log)
            && |w.log| == |w.runs|
            && (forall n :: 0 <= n < |w.log| ==>
                  && Witnesses(w.runs, w.log, n)
                  && w.log[n].sequence == n + 1
                  && w.log[n].content.runId in w.runs
                  && SaysOf(w.log[n].content, w.runs[w.log[n].content.runId]))
            && (forall m, n :: 0 <= m < n < |w.log| ==> w.log[m].content.runId != w.log[n].content.runId)
            && (forall r :: r in w.runs ==> Witnessed(w.runs, w.log, r))
  {
    hide Accounted, KeysWereSent, AllAccountable, AllAnswer, AllApart, AllOrderly, Verifies, Witnesses, SaysOf;
    Reachable(b, policies, es);
    SoundLogSays(b.digest, Execute(b, Start(policies), es).runs, Execute(b, Start(policies), es).log);
  }

  lemma SoundLogSays(digest: Digest, runs: Runs, log: seq<Entry>)
    requires StoreSound(digest, runs, log)
    ensures forall n :: 0 <= n < |log| ==>
              && log[n].sequence == n + 1
              && log[n].content.runId in runs && SaysOf(log[n].content, runs[log[n].content.runId])
  {
    forall n | 0 <= n < |log|
      ensures log[n].sequence == n + 1
      ensures log[n].content.runId in runs && SaysOf(log[n].content, runs[log[n].content.runId])
    {
      assert Witnesses(runs, log, n) && Witnessed(runs, log, log[n].content.runId);
    }
  }

  /** A commit only ever adds a run id that was not there. */
  lemma StepKeepsCommitted(b: Build, w: World, e: Event)
    requires Inv(b, w) && Enabled(w, e)
    ensures w.log <= Step(b, w, e).log
    ensures forall r :: r in w.runs ==> r in Step(b, w, e).runs && Step(b, w, e).runs[r] == w.runs[r]
  {
    hide Accounted, StoreSound, AllAccountable, AllAnswer, AllApart, KeysWereSent;
    if e.CommitRun? {
      assert Orderly(b, w.runs, w.log, w.systems, w.sent, w.attempts[e.i]);
    }
  }

  /** The log and the runs are append-only: what was committed once is found unchanged ever after. */
  lemma {:induction false} TheLogOnlyGrows(b: Build, w: World, es: seq<Event>)
    requires Inv(b, w) && Possible(b, w, es)
    ensures w.log <= Execute(b, w, es).log
    ensures forall r :: r in w.runs ==> r in Execute(b, w, es).runs && Execute(b, w, es).runs[r] == w.runs[r]
    decreases |es|
  {
    if es != [] {
      StepKeepsCommitted(b, w, es[0]);
      StepKeepsInv(b, w, es[0]);
      hide Inv;
      TheLogOnlyGrows(b, Step(b, w, es[0]), es[1..]);
    }
  }

  /** A status key the systems hold is a committed run's, for that run's claim and status. */
  lemma StatusKeyHasARun(b: Build, w: World, k: Key)
    returns (r: RunId)
    requires Inv(b, w) && k in w.systems.keys && w.systems.keys[k].fingerprint.canonical.RecordStatus?
    ensures r in w.runs && k == StatusKey(r)
    ensures w.systems.keys[k].fingerprint.canonical == RecordStatus(w.runs[r].claimId, w.runs[r].status)
  {
    var message := Message(k, w.systems.keys[k].fingerprint.canonical);
    assert Accountable(w.runs, message);
    r :| r in w.runs && message == StatusMessage(w.runs[r]);
    assert Witnessed(w.runs, w.log, r);
  }

  /** The run id under whose key a claim was created. */
  lemma CreatedUnder(b: Build, w: World, c: Uuid) returns (r: RunId)
    requires Inv(b, w) && c in w.systems.claims
    ensures CreateKeys(w.systems, c) == {ClaimKey(r)}
  {
    hide StoreSound, AllAnswer, AllApart, AllOrderly, TraceableKey, SeparateTransitions;
    assert AccountedClaim(w.systems, c);
    var k := OnlyMember(CreateKeys(w.systems, c));
    var message := Message(k, w.systems.keys[k].fingerprint.canonical);
    assert Accountable(w.runs, message);
    r :| message.key == ClaimKey(r);
  }

  /** A claim belongs to exactly one run id, and a run id to one claim at most: the claim's create key is
      that run's and no other's, and created no other claim. */
  lemma OneRunPerClaim(b: Build, w: World, c: Uuid) returns (r: RunId)
    requires Inv(b, w) && c in w.systems.claims
    ensures CreateKeys(w.systems, c) == {ClaimKey(r)}
    ensures forall d :: d in w.systems.claims && ClaimKey(r) in CreateKeys(w.systems, d) ==> d == c
    ensures forall q :: ClaimKey(q) in CreateKeys(w.systems, c) ==> q == r
    ensures forall q :: q in w.runs && w.runs[q].claimId == c ==> q == r
  {
    hide Inv, ClaimKey;
    r := CreatedUnder(b, w, c);
    forall q | q in w.runs && w.runs[q].claimId == c ensures ClaimKey(q) in CreateKeys(w.systems, c) {
      RunHasItsClaim(b, w, q);
    }
    forall q | ClaimKey(q) in CreateKeys(w.systems, c) ensures q == r {
      KeysAreApart(q, r);
    }
  }

  lemma RunHasItsClaim(b: Build, w: World, r: RunId)
    requires Inv(b, w) && r in w.runs
    ensures w.runs[r].runId == r
    ensures w.runs[r].claimId in w.systems.claims
    ensures ClaimKey(r) in CreateKeys(w.systems, w.runs[r].claimId)
  {
    hide Accounted, KeysWereSent, AllAccountable, AllApart, AllOrderly, Verifies, ClaimKey;
    assert Answers(b, w.systems, w.runs[r]) && Witnessed(w.runs, w.log, r);
  }

  lemma OnlyMember<T>(s: set<T>) returns (x: T)
    requires |s| == 1
    ensures s == {x}
  {
    x :| x in s;
    assert |s - {x}| == 0;
    assert s == {x} + (s - {x});
  }

  /** At most one status key names a claim, because one run does. */
  lemma AtMostOneStatusKey(b: Build, w: World, c: Uuid) returns (r: RunId)
    requires Inv(b, w) && c in w.systems.claims
    ensures StatusKeys(w.systems, c) <= {StatusKey(r)} && CreateKeys(w.systems, c) == {ClaimKey(r)}
    ensures StatusKeys(w.systems, c) != {} ==>
      && r in w.runs && w.runs[r].claimId == c
      && w.systems.keys[StatusKey(r)].fingerprint.canonical == RecordStatus(c, w.runs[r].status)
  {
    r := OneRunPerClaim(b, w, c);
    forall k | k in StatusKeys(w.systems, c)
      ensures k == StatusKey(r) && r in w.runs && w.runs[r].claimId == c
      ensures w.systems.keys[k].fingerprint.canonical == RecordStatus(c, w.runs[r].status)
    {
      var q := StatusKeyHasARun(b, w, k);
    }
  }

  /** A claim the systems hold is [received], or [received, s] where a committed run and its audit entry
      say s about that very claim. */
  lemma EveryStatusHasEvidence(b: Build, policies: set<string>, es: seq<Event>, c: Uuid)
    requires Possible(b, Start(policies), es) && c in Execute(b, Start(policies), es).systems.claims
    ensures var w := Execute(b, Start(policies), es);
            var claim := w.systems.claims[c];
            && 1 <= |claim.history| <= 2
            && claim.history[0].status == Received
            && claim.status == claim.history[|claim.history| - 1].status
            && (|claim.history| == 2 ==> exists n :: 0 <= n < |w.log| && SpeaksFor(w, n, c, claim.status))
  {
    Reachable(b, policies, es);
    EvidenceFor(b, Execute(b, Start(policies), es), c);
  }

  lemma EvidenceFor(b: Build, w: World, c: Uuid)
    requires Inv(b, w) && c in w.systems.claims
    ensures var claim := w.systems.claims[c];
            && 1 <= |claim.history| <= 2
            && claim.history[0].status == Received
            && claim.status == claim.history[|claim.history| - 1].status
            && (|claim.history| == 2 ==> exists n :: 0 <= n < |w.log| && SpeaksFor(w, n, c, claim.status))
  {
    var r := AtMostOneStatusKey(b, w, c);
    hide KeysWereSent, AllAccountable, AllAnswer, AllApart, AllOrderly;
    HistoryFromKeys(w.systems, c, StatusKey(r));
    if StatusKeys(w.systems, c) != {} {
      hide Accounted;
      assert Witnessed(w.runs, w.log, r);
      var n :| 0 <= n < |w.log| && w.log[n].content.runId == r;
      assert Witnesses(w.runs, w.log, n);
      assert SpeaksFor(w, n, c, w.systems.claims[c].status);
    }
  }

  /** With at most one status key, a history is the first transition and at most that key's. */
  lemma HistoryFromKeys(t: Tables, c: Uuid, k: Key)
    requires Accounted(t) && c in t.claims && StatusKeys(t, c) <= {k}
    ensures var claim := t.claims[c];
            && 1 <= |claim.history| <= 2
            && claim.history[0].status == Received
            && claim.status == claim.history[|claim.history| - 1].status
            && (|claim.history| == 2 <==> k in StatusKeys(t, c))
            && (StatusKeys(t, c) != {} ==> claim.status == t.keys[k].fingerprint.canonical.status)
  {
    hide SeparateTransitions, CreateKeys;
    assert AccountedClaim(t, c);
    if k in StatusKeys(t, c) {
      assert StatusKeys(t, c) == {k};
      assert TraceableKey(t, k);
      hide Accounted;
    } else {
      assert StatusKeys(t, c) == {};
      hide Accounted, StatusKeys, TraceableKey;
    }
  }

  /** The n-th audit entry and its run agree that the claim stands there. */
  ghost predicate SpeaksFor(w: World, n: nat, c: Uuid, status: ClaimStatus)
    requires n < |w.log|
  {
    var r := w.log[n].content.runId;
    && r in w.runs && w.runs[r].claimId == c && w.runs[r].status == status
    && w.log[n].content.claimId == c && w.log[n].content.status == status
  }

  /** With the graph this build has, the history is [received] or [received, triaged]. */
  lemma HistoriesOfTheSkeleton(digest: Digest, policies: set<string>, es: seq<Event>, c: Uuid)
    requires Possible(Build(digest, NoOp), Start(policies), es)
    requires c in Execute(Build(digest, NoOp), Start(policies), es).systems.claims
    ensures var history := Execute(Build(digest, NoOp), Start(policies), es).systems.claims[c].history;
            || (|history| == 1 && history[0].status == Received)
            || (|history| == 2 && history[0].status == Received && history[1].status == Triaged)
  {
    var b := Build(digest, NoOp);
    var w := Execute(b, Start(policies), es);
    Reachable(b, policies, es);
    EveryStatusHasEvidence(b, policies, es, c);
    if |w.systems.claims[c].history| == 2 {
      var n :| 0 <= n < |w.log| && SpeaksFor(w, n, c, w.systems.claims[c].status);
      assert Answers(b, w.systems, w.runs[w.log[n].content.runId]);
    }
  }

  /** What a caller is told is so: the claim stands where the run's own committed row says. */
  lemma CompletionIsTrue(b: Build, policies: set<string>, es: seq<Event>, i: nat)
    requires Possible(b, Start(policies), es) && i < |Execute(b, Start(policies), es).attempts|
    requires Execute(b, Start(policies), es).attempts[i].stage.Completed?
    ensures var w := Execute(b, Start(policies), es);
            var stage := w.attempts[i].stage;
            && stage.run.runId in w.runs && w.runs[stage.run.runId] == stage.run
            && stage.emitted == stage.run.status
            && stage.run.claimId in w.systems.claims
            && w.systems.claims[stage.run.claimId].status == stage.emitted
  {
    Reachable(b, policies, es);
    var w := Execute(b, Start(policies), es);
    var run := w.attempts[i].stage.run;
    assert Orderly(b, w.runs, w.log, w.systems, w.sent, w.attempts[i]);
    EmittedIsHeld(b, w, run.runId);
  }

  /** A status key the systems hold is its own run's: no other message carries it. */
  lemma HeldStatusKey(b: Build, w: World, r: RunId)
    requires Inv(b, w) && r in w.runs && StatusKey(r) in w.systems.keys
    ensures w.systems.keys[StatusKey(r)].fingerprint.canonical == RecordStatus(w.runs[r].claimId, w.runs[r].status)
    ensures StatusMessage(w.runs[r]) in w.sent
  {
    hide Accounted, AllAnswer, AllApart, AllOrderly, Verifies;
    var message := Message(StatusKey(r), w.systems.keys[StatusKey(r)].fingerprint.canonical);
    assert Accountable(w.runs, message);
    if q :| q in w.runs && message == StatusMessage(w.runs[q]) {
      assert Witnessed(w.runs, w.log, q);
      KeysAreApart(q, r);
    } else {
      var q :| message.key == ClaimKey(q);
      KeysAreApart(q, r);
      assert false;
    }
  }

  lemma EmittedIsHeld(b: Build, w: World, r: RunId)
    requires Inv(b, w) && r in w.runs && StatusKey(r) in w.systems.keys
    ensures w.runs[r].claimId in w.systems.claims
    ensures w.systems.claims[w.runs[r].claimId].status == w.runs[r].status
    ensures |w.systems.claims[w.runs[r].claimId].history| == 2
  {
    var t, c := w.systems, w.runs[r].claimId;
    HeldStatusKey(b, w, r);
    hide StoreSound, KeysWereSent, AllAccountable, AllApart, AllOrderly;
    assert Answers(b, t, w.runs[r]);
    var q := AtMostOneStatusKey(b, w, c);
    hide Inv;
    assert StatusKey(r) in StatusKeys(t, c);
    KeysAreApart(q, r);
    HistoryFromKeys(t, c, StatusKey(r));
  }

  // ---------------------------------------------------------------- nobody waits forever

  /** The chain lock's holder waits for nothing, and an insert waits only for an open transaction; so
      among unfinished runs one can always go on without failing. */
  lemma NeverStuck(w: World, i: nat) returns (e: Event)
    requires i < |w.attempts| && !Ended(w.attempts[i])
    ensures Enabled(w, e) && !e.Fail? && !e.Submit? && !e.Deliver?
  {
    if j :| 0 <= j < |w.attempts| && w.attempts[j].stage.EntryAppended? {
      e := CommitRun(j);
    } else if j :| 0 <= j < |w.attempts| && w.attempts[j].stage.RunInserted? {
      e := AppendEntry(j);
    } else {
      var id := SomeUnused(w.systems);
      match w.attempts[i].stage {
        case TakingIn => e := ReplyClaim(i, id, 0);
        case TakenIn(_) => e := Decide(i, "", 0);
        case Deciding(_) => e := InsertRun(i);
        case Recorded(_) => e := Emit(i);
        case Emitting(_) => e := ReplyStatus(i, id, 0);
      }
    }
  }

  // ---------------------------------------------------------------- a failed emission

  /** A committed run whose status nobody has sent and nobody is about to send. */
  ghost predicate Silent(w: World, r: RunId) {
    && r in w.runs
    && StatusMessage(w.runs[r]) !in w.sent
    && forall i :: 0 <= i < |w.attempts| && w.attempts[i].stage.Recorded? ==> w.attempts[i].stage.run.runId != r
  }

  lemma StepStaysSilent(b: Build, w: World, e: Event, r: RunId)
    requires Inv(b, w) && Enabled(w, e) && Silent(w, r)
    ensures Silent(Step(b, w, e), r)
  {
    hide Inv, Step, Enabled, StatusMessage, Accounted;
    var u := Step(b, w, e);
    StepKeepsCommitted(b, w, e);
    if StatusMessage(w.runs[r]) in u.sent {
      StatusIsSentByItsRun(b, w, e, r);
    }
    forall j | 0 <= j < |u.attempts| && u.attempts[j].stage.Recorded? ensures u.attempts[j].stage.run.runId != r {
      if u.attempts[j].stage.run.runId == r {
        RecordedAfter(b, w, e, j);
      }
    }
  }

  /** A status newly sent is sent by an attempt of its own run that has committed. */
  lemma StatusIsSentByItsRun(b: Build, w: World, e: Event, r: RunId)
    requires Inv(b, w) && Enabled(w, e) && r in w.runs
    requires StatusMessage(w.runs[r]) in Step(b, w, e).sent && StatusMessage(w.runs[r]) !in w.sent
    ensures e.Emit? && e.i < |w.attempts| && w.attempts[e.i].stage.Recorded? && w.attempts[e.i].stage.run.runId == r
  {
    hide Accounted, KeysWereSent, AllAnswer, AllAccountable, AllApart, AllOrderly, Verifies, Once;
    assert Witnessed(w.runs, w.log, r);
    if e.Emit? {
      KeysAreApart(w.attempts[e.i].stage.run.runId, r);
    }
  }

  /** Only a commit, of a run id that was not there, leaves an attempt recorded. */
  lemma RecordedAfter(b: Build, w: World, e: Event, j: nat)
    requires Inv(b, w) && Enabled(w, e) && j < |Step(b, w, e).attempts| && Step(b, w, e).attempts[j].stage.Recorded?
    ensures || (j < |w.attempts| && w.attempts[j] == Step(b, w, e).attempts[j])
            || Step(b, w, e).attempts[j].stage.run.runId !in w.runs
  {
    hide Accounted, KeysWereSent, AllAnswer, AllAccountable, AllApart, StoreSound, Once;
    if e.CommitRun? {
      assert Orderly(b, w.runs, w.log, w.systems, w.sent, w.attempts[e.i]);
    }
  }

  lemma {:induction false} StaysSilent(b: Build, w: World, es: seq<Event>, r: RunId)
    requires Inv(b, w) && Possible(b, w, es) && Silent(w, r)
    ensures Silent(Execute(b, w, es), r) && Execute(b, w, es).runs[r] == w.runs[r]
    decreases |es|
  {
    if es != [] {
      StepStaysSilent(b, w, es[0], r);
      StepKeepsCommitted(b, w, es[0]);
      StepKeepsInv(b, w, es[0]);
      hide Inv, Silent;
      StaysSilent(b, Step(b, w, es[0]), es[1..], r);
    }
  }

  /** While a run is silent, its claim has not moved. */
  lemma SilentClaimIsReceived(b: Build, w: World, r: RunId)
    requires Inv(b, w) && Silent(w, r)
    ensures w.runs[r].claimId in w.systems.claims
    ensures |w.systems.claims[w.runs[r].claimId].history| == 1
    ensures w.systems.claims[w.runs[r].claimId].status == Received
  {
    SilentKey(b, w, r);
    UnkeyedClaimIsReceived(b, w, r);
  }

  /** Nor has the claim of any run whose status key the systems do not hold. */
  lemma UnkeyedClaimIsReceived(b: Build, w: World, r: RunId)
    requires Inv(b, w) && r in w.runs && StatusKey(r) !in w.systems.keys
    ensures w.runs[r].claimId in w.systems.claims
    ensures |w.systems.claims[w.runs[r].claimId].history| == 1
    ensures w.systems.claims[w.runs[r].claimId].status == Received
  {
    var c := w.runs[r].claimId;
    hide StoreSound, KeysWereSent, AllAccountable, AllApart, AllOrderly;
    assert Answers(b, w.systems, w.runs[r]);
    var q := AtMostOneStatusKey(b, w, c);
    var p := OneRunPerClaim(b, w, c);
    hide Inv;
    KeysAreApart(q, p);
    assert StatusKeys(w.systems, c) == {};
    HistoryFromKeys(w.systems, c, StatusKey(r));
  }

  lemma SilentKey(b: Build, w: World, r: RunId)
    requires Inv(b, w) && Silent(w, r)
    ensures StatusKey(r) !in w.systems.keys
  {
    if StatusKey(r) in w.systems.keys {
      HeldStatusKey(b, w, r);
    }
  }

  /** Whether some continuation, with any retries, moves the claim of this run past `received`. */
  ghost predicate CanStillBeEmitted(b: Build, w: World, r: RunId)
    requires r in w.runs
  {
    exists es :: Possible(b, w, es) && Moved(Execute(b, w, es), w.runs[r].claimId)
  }

  ghost predicate Moved(w: World, c: Uuid) {
    c in w.systems.claims && |w.systems.claims[c].history| > 1
  }

  /** Exactly when a recorded run's emission can still happen: its status was already sent, or the very
      attempt that committed it is still there to send it. Sending the run again never helps, because a
      recorded run id fails at its insert, before anything is emitted. */
  lemma EmissionIsNotRetried(b: Build, w: World, r: RunId)
    requires Inv(b, w) && r in w.runs
    ensures CanStillBeEmitted(b, w, r) <==> !Silent(w, r)
  {
    if Silent(w, r) {
      forall es | Possible(b, w, es) ensures !Moved(Execute(b, w, es), w.runs[r].claimId) {
        StaysSilent(b, w, es, r);
        ExecuteKeepsInv(b, w, es);
        SilentClaimIsReceived(b, Execute(b, w, es), r);
      }
    } else if StatusMessage(w.runs[r]) in w.sent {
      SentCanMove(b, w, r);
    } else {
      RecordedCanMove(b, w, r);
    }
  }

  lemma SentCanMove(b: Build, w: World, r: RunId)
    requires Inv(b, w) && r in w.runs && StatusMessage(w.runs[r]) in w.sent
    ensures CanStillBeEmitted(b, w, r)
  {
    hide Inv, Step, Enabled, Moved;
    var e := DeliveryMoves(b, w, r);
    FirstStep(b, w, e, []);
    assert Possible(b, w, [e]) && Moved(Execute(b, w, [e]), w.runs[r].claimId);
  }

  lemma FirstStep(b: Build, w: World, e: Event, es: seq<Event>)
    requires Enabled(w, e) && Possible(b, Step(b, w, e), es)
    ensures Possible(b, w, [e] + es) && Execute(b, w, [e] + es) == Execute(b, Step(b, w, e), es)
  {
    hide Step, Enabled;
    assert ([e] + es)[1..] == es;
  }

  lemma RecordedIsCommitted(b: Build, w: World, i: nat)
    requires Inv(b, w) && i < |w.attempts| && w.attempts[i].stage.Recorded?
    ensures IsCommitted(w.runs, w.attempts[i].stage.run)
  {
    hide Accounted, StoreSound, KeysWereSent, AllAnswer, AllAccountable, AllApart;
    assert Orderly(b, w.runs, w.log, w.systems, w.sent, w.attempts[i]);
  }

  lemma RecordedCanMove(b: Build, w: World, r: RunId)
    requires Inv(b, w) && r in w.runs && StatusMessage(w.runs[r]) !in w.sent && !Silent(w, r)
    ensures CanStillBeEmitted(b, w, r)
  {
    hide Inv;
    var i :| 0 <= i < |w.attempts| && w.attempts[i].stage.Recorded? && w.attempts[i].stage.run.runId == r;
    RecordedIsCommitted(b, w, i);
    StepKeepsInv(b, w, Emit(i));
    var v := Step(b, w, Emit(i));
    assert v.runs == w.runs && StatusMessage(w.runs[r]) in v.sent;
    hide Step, Enabled, Moved;
    SentCanMove(b, v, r);
    var es :| Possible(b, v, es) && Moved(Execute(b, v, es), v.runs[r].claimId);
    FirstStep(b, w, Emit(i), es);
    assert Possible(b, w, [Emit(i)] + es) && Moved(Execute(b, w, [Emit(i)] + es), w.runs[r].claimId);
  }

  /** Asking with an identifier no row has is allowed, and leaves the key behind. */
  lemma AskingSticks(t: Tables, run: TriageRun, id: Uuid)
    requires Unused(t, id) && run.claimId in t.claims
    ensures DrawsFresh(t, Asked(StatusMessage(run), id, 0))
    ensures StatusKey(run.runId) in Once(t, Asked(StatusMessage(run), id, 0)).0.keys
  {
  }

  /** A status that was sent takes effect when it is delivered, or has already. */
  lemma DeliveryMoves(b: Build, w: World, r: RunId) returns (e: Event)
    requires Inv(b, w) && r in w.runs && StatusMessage(w.runs[r]) in w.sent
    ensures Enabled(w, e) && Moved(Step(b, w, e), w.runs[r].claimId)
  {
    hide Inv, Once, DrawsFresh;
    var id := SomeUnused(w.systems);
    e := Deliver(StatusMessage(w.runs[r]), id, 0);
    RunHasItsClaim(b, w, r);
    AskingSticks(w.systems, w.runs[r], id);
    StepKeepsInv(b, w, e);
    EmittedIsHeld(b, Step(b, w, e), r);
  }

  /** A sequence of worlds each of which is the step before it is an execution. */
  lemma {:induction false} Chain(b: Build, ws: seq<World>, es: seq<Event>)
    requires |ws| == |es| + 1
    requires forall k :: 0 <= k < |es| ==> Follows(b, ws[k], es[k], ws[k + 1])
    ensures Possible(b, ws[0], es) && Execute(b, ws[0], es) == ws[|es|]
    decreases |es|
  {
    hide Step, Enabled;
    if es != [] {
      assert Follows(b, ws[0], es[0], ws[1]);
      forall k | 0 <= k < |es[1..]| ensures Follows(b, ws[1..][k], es[1..][k], ws[1..][k + 1]) {
        assert Follows(b, ws[k + 1], es[k + 1], ws[k + 2]);
      }
      Chain(b, ws[1..], es[1..]);
    }
  }

  ghost predicate Follows(b: Build, w: World, e: Event, u: World) {
    Enabled(w, e) && Step(b, w, e) == u
  }

  /** The steps of one run that dies between its commit and its emission, and is then sent again. */
  function DiesThenRetries(request: RunRequest): seq<Event> {
    [Submit(request, 0), ReplyClaim(0, 0, 0), Decide(0, "", 0), InsertRun(0), AppendEntry(0),
     CommitRun(0), Fail(0, Interrupted),
     Submit(request, 1), ReplyClaim(1, 1, 1), Decide(1, "", 1), InsertRun(1)]
  }

  function RunOf(b: Build, request: RunRequest, at: int): TriageRun {
    TriageRun(request.runId, 0, request.experiment, request.variant, b.graph(request),
              request.guardVerdicts, "", at, at)
  }

  /** The systems once the run's claim is in them. */
  function TakenInTables(policies: set<string>, request: RunRequest): Tables {
    var claim := Claim(request.policyNumber, request.incidentDate, request.amountCents, Received,
                       [Transition(Received, 0)]);
    Tables(policies, map[0 := claim], map[], map[],
           map[ClaimKey(request.runId) :=
                 Remembered(RequestFingerprint(ClaimMessage(request).operation), ClaimHeld(0, claim))])
  }

  /** The first attempt's worlds, up to the commit and the crash after it. */
  function FirstAttempt(b: Build, policies: set<string>, request: RunRequest): seq<World> {
    var t, sent, run := TakenInTables(policies, request), {ClaimMessage(request)}, RunOf(b, request, 0);
    var entry := NextEntry(b, [], run);
    [Start(policies),
     World(Seeded(policies), sent, map[], [], [Attempt(request, 0, TakingIn)]),
     World(t, sent, map[], [], [Attempt(request, 0, TakenIn(0))]),
     World(t, sent, map[], [], [Attempt(request, 0, Deciding(run))]),
     World(t, sent, map[], [], [Attempt(request, 0, RunInserted(run))]),
     World(t, sent, map[], [], [Attempt(request, 0, EntryAppended(run, entry))]),
     World(t, sent, map[request.runId := run], [entry], [Attempt(request, 0, Recorded(run))]),
     World(t, sent, map[request.runId := run], [entry], [Attempt(request, 0, Failed(Interrupted))])]
  }

  function Retried(b: Build, policies: set<string>, request: RunRequest, stage: Stage): World {
    var t, sent, run := TakenInTables(policies, request), {ClaimMessage(request)}, RunOf(b, request, 0);
    World(t, sent, map[request.runId := run], [NextEntry(b, [], run)],
          [Attempt(request, 0, Failed(Interrupted)), Attempt(request, 1, stage)])
  }

  lemma FirstAttemptFollows(b: Build, policies: set<string>, request: RunRequest, k: nat)
    requires request.policyNumber in policies && k < 7
    ensures var ws := FirstAttempt(b, policies, request);
            Follows(b, ws[k], DiesThenRetries(request)[k], ws[k + 1])
  {
    assert {ClaimMessage(request)} == {} + {ClaimMessage(request)};
    if k < 3 {
      hide Evidence, NextEntry;
    } else {
      hide Once;
    }
  }

  lemma RetryFollows(b: Build, policies: set<string>, request: RunRequest)
    requires request.policyNumber in policies
    ensures Follows(b, FirstAttempt(b, policies, request)[7], Submit(request, 1),
                    Retried(b, policies, request, TakingIn))
    ensures Follows(b, Retried(b, policies, request, TakingIn), ReplyClaim(1, 1, 1),
                    Retried(b, policies, request, TakenIn(0)))
    ensures Follows(b, Retried(b, policies, request, TakenIn(0)), Decide(1, "", 1),
                    Retried(b, policies, request, Deciding(RunOf(b, request, 1))))
    ensures Follows(b, Retried(b, policies, request, Deciding(RunOf(b, request, 1))), InsertRun(1),
                    Retried(b, policies, request, Failed(AlreadyRecorded)))
  {
  }

  /** Such a run is reachable for every request against a known policy: the retry is refused as already
      recorded, and the claim is left silent. The decision record promises that a retry closes the gap;
      the code does not close it. */
  lemma ARetryDoesNotCloseTheGap(b: Build, policies: set<string>, request: RunRequest)
    requires request.policyNumber in policies
    ensures Possible(b, Start(policies), DiesThenRetries(request))
    ensures var w := Execute(b, Start(policies), DiesThenRetries(request));
            && Silent(w, request.runId)
            && |w.attempts| == 2 && w.attempts[1].stage == Failed(AlreadyRecorded)
            && !CanStillBeEmitted(b, w, request.runId)
  {
    var es := DiesThenRetries(request);
    var w := Retried(b, policies, request, Failed(AlreadyRecorded));
    var ws := FirstAttempt(b, policies, request)
      + [Retried(b, policies, request, TakingIn), Retried(b, policies, request, TakenIn(0)),
         Retried(b, policies, request, Deciding(RunOf(b, request, 1))), w];
    assert Silent(w, request.runId) by {
      KeysAreApart(request.runId, request.runId);
    }
    forall k | 0 <= k < |es| ensures Follows(b, ws[k], es[k], ws[k + 1]) {
      hide Follows;
      RetryFollows(b, policies, request);
      if k < 7 {
        FirstAttemptFollows(b, policies, request, k);
      }
    }
    hide Follows, Silent, Inv;
    Chain(b, ws, es);
    Reachable(b, policies, es);
    EmissionIsNotRetried(b, w, request.runId);
  }
}
