/** Where every recorded field comes from: the request that was submitted, the decision made on it, and
    nothing else. */
module TriagerRecords {
  import opened CoreSimTables
  import opened Audit
  import opened Triager
  import opened TriagerGuarantees

  // ---------------------------------------------------------------- one step behind the other

  predicate HasRun(stage: Stage) {
    stage.Deciding? || stage.RunInserted? || stage.EntryAppended? || stage.Recorded? || stage.Emitting?
    || stage.Completed?
  }

  /** The run is what the i-th attempt's request was decided to be, with the trace and the instants of the
      very steps that began and decided it. */
  ghost predicate DecidedBy(b: Build, past: seq<Event>, w: World, i: nat, run: TriageRun)
    requires i < |w.attempts|
  {
    var a := w.attempts[i];
    && About(b, w.systems, a.request, run)
    && run.startedAt == a.startedAt
    && Decide(i, run.traceId, run.completedAt) in past
  }

  ghost predicate Began(past: seq<Event>, a: Attempt) {
    Submit(a.request, a.startedAt) in past
  }

  ghost predicate SomeoneDecided(b: Build, past: seq<Event>, w: World, run: TriageRun) {
    exists i :: 0 <= i < |w.attempts| && DecidedBy(b, past, w, i, run)
  }

  ghost predicate AllBegan(past: seq<Event>, w: World) {
    forall i :: 0 <= i < |w.attempts| ==> Began(past, w.attempts[i])
  }

  /** Every attempt was submitted as it stands, every run in hand was decided by its own attempt, and every
      committed run by some attempt. */
  ghost predicate Traced(b: Build, past: seq<Event>, w: World) {
    && AllBegan(past, w)
    && (forall i :: 0 <= i < |w.attempts| && HasRun(w.attempts[i].stage) ==>
          DecidedBy(b, past, w, i, w.attempts[i].stage.run))
    && (forall r :: r in w.runs ==> SomeoneDecided(b, past, w, w.runs[r]))
  }

  /** No step touches what an attempt was asked or when it began. */
  ghost predicate Continued(w: World, u: World) {
    && |w.attempts| <= |u.attempts|
    && (forall i :: 0 <= i < |w.attempts| ==>
          u.attempts[i].request == w.attempts[i].request && u.attempts[i].startedAt == w.attempts[i].startedAt)
    && Grows(w.systems, u.systems)
  }

  lemma StepContinues(b: Build, w: World, e: Event)
    requires Enabled(w, e)
    ensures Continued(w, Step(b, w, e))
  {
    StepGrows(b, w, e);
    hide Once, DrawsFresh, Grows;
  }

  lemma StepGrows(b: Build, w: World, e: Event)
    requires Enabled(w, e)
    ensures Grows(w.systems, Step(b, w, e).systems)
  {
    hide DrawsFresh, Once;
    match e {
      case Deliver(message, id, now) => OnceGrows(w.systems, Asked(message, id, now));
      case ReplyClaim(i, id, now) => OnceGrows(w.systems, Asked(ClaimMessage(w.attempts[i].request), id, now));
      case ReplyStatus(i, id, now) => OnceGrows(w.systems, Asked(StatusMessage(w.attempts[i].stage.run), id, now));
      case _ =>
    }
  }

  lemma StaysDecided(b: Build, past: seq<Event>, w: World, e: Event, u: World, i: nat, run: TriageRun)
    requires Continued(w, u) && i < |w.attempts| && DecidedBy(b, past, w, i, run)
    ensures DecidedBy(b, past + [e], u, i, run)
  {
  }

  /** The stage a step leaves an attempt in holds the run it held, or the run just decided. */
  lemma RunInHand(b: Build, w: World, e: Event, i: nat)
    requires Enabled(w, e) && i < |Step(b, w, e).attempts| && HasRun(Step(b, w, e).attempts[i].stage)
    ensures i < |w.attempts|
    ensures var run := Step(b, w, e).attempts[i].stage.run;
            || (HasRun(w.attempts[i].stage) && w.attempts[i].stage.run == run)
            || (w.attempts[i].stage.TakenIn? && e == Decide(i, run.traceId, run.completedAt)
                && run == DecidedRun(b, w.attempts[i], run.traceId, run.completedAt))
  {
    hide Once, DrawsFresh;
  }

  lemma InHandIsDecided(b: Build, past: seq<Event>, w: World, e: Event, i: nat)
    requires Inv(b, w) && Traced(b, past, w) && Enabled(w, e)
    requires i < |Step(b, w, e).attempts| && HasRun(Step(b, w, e).attempts[i].stage)
    ensures DecidedBy(b, past + [e], Step(b, w, e), i, Step(b, w, e).attempts[i].stage.run)
  {
    hide Accounted, StoreSound, AllAccountable, AllAnswer, AllApart, KeysWereSent, Once, DrawsFresh;
    var u := Step(b, w, e);
    RunInHand(b, w, e, i);
    StepContinues(b, w, e);
    hide Step, Enabled;
    if HasRun(w.attempts[i].stage) && w.attempts[i].stage.run == u.attempts[i].stage.run {
      StaysDecided(b, past, w, e, u, i, u.attempts[i].stage.run);
    } else {
      assert Orderly(b, w.runs, w.log, w.systems, w.sent, w.attempts[i]);
    }
  }

  lemma CommittedIsDecided(b: Build, past: seq<Event>, w: World, e: Event, r: RunId)
    requires Traced(b, past, w) && Enabled(w, e) && r in Step(b, w, e).runs
    ensures SomeoneDecided(b, past + [e], Step(b, w, e), Step(b, w, e).runs[r])
  {
    var u := Step(b, w, e);
    StepContinues(b, w, e);
    var i: nat;
    if r in w.runs && u.runs[r] == w.runs[r] {
      assert SomeoneDecided(b, past, w, w.runs[r]);
      i :| i < |w.attempts| && DecidedBy(b, past, w, i, w.runs[r]);
    } else {
      i := e.i;
    }
    hide Step, Enabled, Continued, Traced;
    StaysDecided(b, past, w, e, u, i, u.runs[r]);
  }

  lemma BeganIsKept(b: Build, past: seq<Event>, w: World, e: Event)
    requires AllBegan(past, w) && Enabled(w, e)
    ensures AllBegan(past + [e], Step(b, w, e))
  {
    var u := Step(b, w, e);
    StepContinues(b, w, e);
    hide Once, DrawsFresh, Grows;
    forall i | 0 <= i < |u.attempts| ensures Began(past + [e], u.attempts[i]) {
      assert i < |w.attempts| ==> Began(past, w.attempts[i]);
    }
  }

  lemma StepKeepsTraced(b: Build, past: seq<Event>, w: World, e: Event)
    requires Inv(b, w) && Traced(b, past, w) && Enabled(w, e)
    ensures Traced(b, past + [e], Step(b, w, e))
  {
    var u := Step(b, w, e);
    hide Inv, Enabled, Step, AllBegan, DecidedBy, SomeoneDecided;
    BeganIsKept(b, past, w, e);
    forall i | 0 <= i < |u.attempts| && HasRun(u.attempts[i].stage)
      ensures DecidedBy(b, past + [e], u, i, u.attempts[i].stage.run)
    {
      InHandIsDecided(b, past, w, e, i);
    }
    forall r | r in u.runs ensures SomeoneDecided(b, past + [e], u, u.runs[r]) {
      CommittedIsDecided(b, past, w, e, r);
    }
  }

  lemma {:induction false} ExecuteKeepsTraced(b: Build, past: seq<Event>, w: World, es: seq<Event>)
    requires Inv(b, w) && Traced(b, past, w) && Possible(b, w, es)
    ensures Traced(b, past + es, Execute(b, w, es)) && Inv(b, Execute(b, w, es))
    decreases |es|
  {
    hide Inv, Traced, Enabled, Step;
    if es == [] {
      assert past + es == past;
    } else {
      StepKeepsTraced(b, past, w, es[0]);
      StepKeepsInv(b, w, es[0]);
      ExecuteKeepsTraced(b, past + [es[0]], Step(b, w, es[0]), es[1..]);
      assert past + [es[0]] + es[1..] == past + es;
    }
  }

  lemma ReachableTraced(b: Build, policies: set<string>, es: seq<Event>)
    requires Possible(b, Start(policies), es)
    ensures Traced(b, es, Execute(b, Start(policies), es)) && Inv(b, Execute(b, Start(policies), es))
  {
    assert Inv(b, Start(policies)) by {
      Reachable(b, policies, []);
    }
    hide Inv, Enabled, Step;
    ExecuteKeepsTraced(b, [], Start(policies), es);
    assert [] + es == es;
  }

  // ---------------------------------------------------------------- what is on record

  /** Every committed run is some submitted request's: it carries the request's id, experiment, variant and guard
      verdicts, the status the graph gave that request, the instant it was submitted, the trace and the instant
      of its decision, and a claim that is held with the policy, the incident and the amount asked for. */
  lemma EveryRunWasRequested(b: Build, policies: set<string>, es: seq<Event>, r: RunId) returns (i: nat)
    requires Possible(b, Start(policies), es) && r in Execute(b, Start(policies), es).runs
    ensures var w := Execute(b, Start(policies), es);
            i < |w.attempts|
    ensures var w := Execute(b, Start(policies), es);
            var (run, request) := (w.runs[r], w.attempts[i].request);
            && run.runId == request.runId == r
            && run.experiment == request.experiment && run.variant == request.variant
            && run.guardVerdicts == request.guardVerdicts
            && run.status == b.graph(request)
            && Submit(request, run.startedAt) in es
            && Decide(i, run.traceId, run.completedAt) in es
            && run.claimId in w.systems.claims
            && w.systems.claims[run.claimId].policyNumber == request.policyNumber
            && w.systems.claims[run.claimId].incidentDate == request.incidentDate
            && w.systems.claims[run.claimId].amountCents == request.amountCents
  {
    var w := Execute(b, Start(policies), es);
    ReachableTraced(b, policies, es);
    assert SomeoneDecided(b, es, w, w.runs[r]);
    i :| i < |w.attempts| && DecidedBy(b, es, w, i, w.runs[r]);
    assert Began(es, w.attempts[i]);
    RunHasItsClaim(b, w, r);
    ClaimAsSubmitted(b, w, w.attempts[i].request, w.runs[r].claimId);
  }

  lemma ClaimAsSubmitted(b: Build, w: World, request: RunRequest, c: Uuid)
    requires Inv(b, w) && AboutItsClaim(w.systems, request, c)
    ensures c in w.systems.claims
    ensures w.systems.claims[c].policyNumber == request.policyNumber
    ensures w.systems.claims[c].incidentDate == request.incidentDate
    ensures w.systems.claims[c].amountCents == request.amountCents
  {
    hide StoreSound, AllAccountable, AllAnswer, AllApart, KeysWereSent, AllOrderly;
    assert TraceableKey(w.systems, ClaimKey(request.runId));
  }

  /** So the verdicts, the experiment and the variant an entry holds are those of a request that was submitted,
      its status is what the graph gave that request, and its trace and its instant those of its decision. */
  lemma EveryEntryWasRequested(b: Build, policies: set<string>, es: seq<Event>, n: nat) returns (i: nat)
    requires Possible(b, Start(policies), es) && n < |Execute(b, Start(policies), es).log|
    ensures var w := Execute(b, Start(policies), es);
            i < |w.attempts|
    ensures var w := Execute(b, Start(policies), es);
            var (content, request) := (w.log[n].content, w.attempts[i].request);
            && content.runId == request.runId
            && content.experiment == request.experiment && content.variant == request.variant
            && content.guardVerdicts == request.guardVerdicts
            && content.status == b.graph(request)
            && (exists startedAt :: Submit(request, startedAt) in es)
            && Decide(i, content.traceId, content.recordedAt) in es
            && content.claimId in w.systems.claims
            && w.systems.claims[content.claimId].policyNumber == request.policyNumber
            && w.systems.claims[content.claimId].incidentDate == request.incidentDate
            && w.systems.claims[content.claimId].amountCents == request.amountCents
  {
    TheLogIsTheEvidence(b, policies, es);
    i := EveryRunWasRequested(b, policies, es, Execute(b, Start(policies), es).log[n].content.runId);
  }
}
