/** The triager over the store as it is: its systems are the protocol of `CoreSimStore`, statement by
    statement, and every run of the two together is a run of `Triager` over the atomic store. */
module TriagerOverStore {
  import opened Options
  import opened CoreSimTables
  import opened Audit
  import S = CoreSimStore
  import T = Triager
  import G = TriagerGuarantees
  import L = CoreSimLinear
  import R = TriagerRecords

  datatype Deployment = Deployment(
    store: S.System,
    sent: set<T.Message>,
    runs: T.Runs,
    log: seq<Entry>,
    attempts: seq<T.Attempt>)

  /** A step of one side, a request that reaches the systems, or an answer that reaches its caller. */
  datatype Event =
    | Own(step: T.Event)
    | Serve(message: T.Message)
    | Statement(statement: S.Event)
    | Hear(i: nat, k: nat)

  function Start(policies: set<string>): Deployment {
    Deployment(S.Start(policies), {}, map[], [], [])
  }

  function AsWorld(d: Deployment): T.World {
    T.World(d.store.tables, d.sent, d.runs, d.log, d.attempts)
  }

  /** The steps of a run that ask nobody. */
  predicate AsksNobody(e: T.Event) {
    e.Submit? || e.Decide? || e.InsertRun? || e.AppendEntry? || e.CommitRun? || e.Emit?
    || (e.Fail? && e.failure.Interrupted?)
  }

  /** What an attempt waits to hear about. */
  function Awaited(a: T.Attempt): Option<T.Message> {
    match a.stage
    case TakingIn => Some(T.ClaimMessage(a.request))
    case Emitting(run) => Some(T.StatusMessage(run))
    case _ => None
  }

  function Served(a: S.Attempt): T.Message {
    T.Message(a.key, a.operation)
  }

  /** What an attempt makes of an answer. */
  function Heard(a: T.Attempt, answer: Answer): T.Stage
    requires Awaited(a).Some?
  {
    match answer
    case Refused(refusal) => T.Failed(T.RefusedBySystems(refusal))
    case Replied(response) =>
      if a.stage.TakingIn? then T.TakenIn(response.id)
      else if response.ClaimHeld? then T.Completed(a.stage.run, response.claim.status)
      else T.Failed(T.UnexpectedResponse)
  }

  ghost predicate Enabled(d: Deployment, e: Event) {
    match e
    case Own(step) => AsksNobody(step) && T.Enabled(AsWorld(d), step)
    case Serve(message) => message in d.sent
    case Statement(statement) => !statement.Begin? && S.Enabled(d.store, statement)
    case Hear(i, k) =>
      && i < |d.attempts| && k < |d.store.attempts|
      && d.store.attempts[k].phase.Answered?
      && Awaited(d.attempts[i]) == Some(Served(d.store.attempts[k]))
  }

  function Step(b: T.Build, d: Deployment, e: Event): Deployment
    requires Enabled(d, e)
  {
    match e
    case Own(step) =>
      var w := T.Step(b, AsWorld(d), step);
      Deployment(d.store, w.sent, w.runs, w.log, w.attempts)
    case Serve(message) => d.(store := S.Step(d.store, S.Begin(message.key, message.operation)))
    case Statement(statement) => d.(store := S.Step(d.store, statement))
    case Hear(i, k) =>
      var a := d.attempts[i];
      d.(attempts := d.attempts[i := a.(stage := Heard(a, d.store.attempts[k].phase.answer))])
  }

  ghost predicate Possible(b: T.Build, d: Deployment, es: seq<Event>)
    decreases |es|
  {
    es == [] || (Enabled(d, es[0]) && Possible(b, Step(b, d, es[0]), es[1..]))
  }

  ghost function Execute(b: T.Build, d: Deployment, es: seq<Event>): Deployment
    requires Possible(b, d, es)
    decreases |es|
  {
    if es == [] then d else Execute(b, Step(b, d, es[0]), es[1..])
  }

  // ---------------------------------------------------------------- one step

  /** The store keeps its own invariant, and serves nothing that was not sent. */
  ghost predicate StoreInOrder(d: Deployment) {
    && S.Inv(d.store)
    && forall k :: 0 <= k < |d.store.attempts| ==> Served(d.store.attempts[k]) in d.sent
  }

  lemma StepKeepsOrder(b: T.Build, d: Deployment, e: Event)
    requires StoreInOrder(d) && Enabled(d, e)
    ensures StoreInOrder(Step(b, d, e))
  {
    hide S.Inv;
    match e {
      case Own(step) =>
      case Serve(message) => S.StepKeepsInv(d.store, S.Begin(message.key, message.operation));
      case Statement(statement) =>
        S.StepKeepsInv(d.store, statement);
        StatementKeepsRequests(d.store, statement);
      case Hear(i, k) =>
    }
  }

  lemma StatementKeepsRequests(s: S.System, e: S.Event)
    requires S.Enabled(s, e) && !e.Begin?
    ensures |S.Step(s, e).attempts| == |s.attempts|
    ensures forall k :: 0 <= k < |s.attempts| ==> Served(S.Step(s, e).attempts[k]) == Served(s.attempts[k])
    ensures !e.Commit? ==> S.Step(s, e).tables == s.tables
  {
  }

  /** A commit in the store is one late delivery to the atomic one. */
  lemma CommitIsADelivery(b: T.Build, d: Deployment, k: nat) returns (e: T.Event)
    requires StoreInOrder(d) && S.Enabled(d.store, S.Commit(k))
    ensures e.Deliver? && T.Enabled(AsWorld(d), e)
    ensures T.Step(b, AsWorld(d), e) == AsWorld(Step(b, d, Statement(S.Commit(k))))
  {
    var call := S.CallOf(d.store, k);
    S.CommitIsOnce(d.store, k);
    e := T.Deliver(Served(d.store.attempts[k]), call.id, call.now);
    assert Once(d.store.tables, T.Asked(e.message, call.id, call.now)).0 == Once(d.store.tables, call).0;
  }

  /** An answer is heard as the atomic store would give it now, or is a refusal it would have given once. */
  lemma HearingIsAReply(b: T.Build, d: Deployment, i: nat, k: nat) returns (e: T.Event)
    requires StoreInOrder(d) && Enabled(d, Hear(i, k))
    ensures !e.Submit? && !e.Decide? && T.Enabled(AsWorld(d), e)
    ensures T.Step(b, AsWorld(d), e) == AsWorld(Step(b, d, Hear(i, k)))
  {
    var s, a := d.store.attempts[k], d.attempts[i];
    assert S.KeyedRight(d.store, k);
    match s.phase.answer {
      case Refused(refusal) => e := T.Fail(i, T.RefusedBySystems(refusal));
      case Replied(response) =>
        assert Once(d.store.tables, T.Asked(Served(s), 0, 0)) == (d.store.tables, Replied(response));
        e := if a.stage.TakingIn? then T.ReplyClaim(i, 0, 0) else T.ReplyStatus(i, 0, 0);
    }
  }

  /** The submissions and the decisions among the atomic run's steps are steps of its own here. */
  ghost predicate OwnAmong(ts: seq<T.Event>, es: seq<Event>) {
    forall t :: t in ts && (t.Submit? || t.Decide?) ==> Own(t) in es
  }

  lemma StepRefines(b: T.Build, d: Deployment, e: Event) returns (es: seq<T.Event>)
    requires StoreInOrder(d) && Enabled(d, e)
    ensures T.Possible(b, AsWorld(d), es)
    ensures T.Execute(b, AsWorld(d), es) == AsWorld(Step(b, d, e))
    ensures OwnAmong(es, [e])
  {
    hide StoreInOrder;
    es := [];
    match e {
      case Own(step) => es := OneStep(b, AsWorld(d), step);
      case Serve(message) =>
      case Statement(statement) =>
        StatementKeepsRequests(d.store, statement);
        if statement.Commit? {
          var delivery := CommitIsADelivery(b, d, statement.i);
          es := OneStep(b, AsWorld(d), delivery);
        }
      case Hear(i, k) =>
        var reply := HearingIsAReply(b, d, i, k);
        es := OneStep(b, AsWorld(d), reply);
    }
  }

  lemma OneStep(b: T.Build, w: T.World, e: T.Event) returns (es: seq<T.Event>)
    requires T.Enabled(w, e)
    ensures es == [e]
    ensures T.Possible(b, w, es) && T.Execute(b, w, es) == T.Step(b, w, e)
  {
    hide T.Enabled, T.Step;
    es := [e];
    assert es[1..] == [] && T.Possible(b, T.Step(b, w, e), []);
  }

  // ---------------------------------------------------------------- any run of the two together

  lemma {:induction false} Joined(b: T.Build, w: T.World, es: seq<T.Event>, more: seq<T.Event>)
    requires T.Possible(b, w, es) && T.Possible(b, T.Execute(b, w, es), more)
    ensures T.Possible(b, w, es + more) && T.Execute(b, w, es + more) == T.Execute(b, T.Execute(b, w, es), more)
    decreases |es|
  {
    hide T.Enabled, T.Step;
    if es == [] {
      assert es + more == more;
    } else {
      assert (es + more)[1..] == es[1..] + more;
      Joined(b, T.Step(b, w, es[0]), es[1..], more);
    }
  }

  lemma {:induction false} ExecuteRefines(b: T.Build, d: Deployment, es: seq<Event>) returns (ts: seq<T.Event>)
    requires StoreInOrder(d) && Possible(b, d, es)
    ensures T.Possible(b, AsWorld(d), ts) && T.Execute(b, AsWorld(d), ts) == AsWorld(Execute(b, d, es))
    ensures StoreInOrder(Execute(b, d, es)) && OwnAmong(ts, es)
    decreases |es|
  {
    hide StoreInOrder, Enabled, Step, T.Enabled, T.Step;
    ts := [];
    if es != [] {
      var first := StepRefines(b, d, es[0]);
      StepKeepsOrder(b, d, es[0]);
      var rest := ExecuteRefines(b, Step(b, d, es[0]), es[1..]);
      Joined(b, AsWorld(d), first, rest);
      ts := first + rest;
    }
  }

  /** Every run of the triager over the interleaved store is a run of the triager over the atomic one, with the
      same tables, runs, log and attempts at its end, and with no submission or decision of its own. */
  lemma Composed(b: T.Build, policies: set<string>, es: seq<Event>) returns (ts: seq<T.Event>)
    requires Possible(b, Start(policies), es)
    ensures T.Possible(b, T.Start(policies), ts)
    ensures T.Execute(b, T.Start(policies), ts) == AsWorld(Execute(b, Start(policies), es))
    ensures OwnAmong(ts, es)
  {
    assert AsWorld(Start(policies)) == T.Start(policies);
    ts := ExecuteRefines(b, Start(policies), es);
  }

  /** So no status in the store's own tables is without a committed run and an audit entry that say it. */
  lemma EveryStatusHasEvidence(b: T.Build, policies: set<string>, es: seq<Event>, c: Uuid)
    requires Possible(b, Start(policies), es) && c in Execute(b, Start(policies), es).store.tables.claims
    ensures var d := Execute(b, Start(policies), es);
            var claim := d.store.tables.claims[c];
            && 1 <= |claim.history| <= 2
            && claim.history[0].status == Received
            && claim.status == claim.history[|claim.history| - 1].status
            && (|claim.history| == 2 ==>
                  exists n :: 0 <= n < |d.log| && G.SpeaksFor(AsWorld(d), n, c, claim.status))
  {
    var ts := Composed(b, policies, es);
    G.EveryStatusHasEvidence(b, policies, ts, c);
  }

  /** The log verifies and pairs off with the committed runs, each entry saying what its run says. */
  lemma TheLogIsTheEvidence(b: T.Build, policies: set<string>, es: seq<Event>)
    requires Possible(b, Start(policies), es)
    ensures var d := Execute(b, Start(policies), es);
            && T.StoreSound(b.digest, d.runs, d.log)
            && forall n :: 0 <= n < |d.log| ==>
                 && d.log[n].content.runId in d.runs
                 && G.SaysOf(d.log[n].content, d.runs[d.log[n].content.runId])
  {
    var ts := Composed(b, policies, es);
    T.Reachable(b, policies, ts);
    G.TheLogIsTheEvidence(b, policies, ts);
  }

  /** And what it says is what was submitted and decided, of the claim as the store's own tables hold it. */
  lemma EveryEntryWasRequested(b: T.Build, policies: set<string>, es: seq<Event>, n: nat) returns (i: nat)
    requires Possible(b, Start(policies), es) && n < |Execute(b, Start(policies), es).log|
    ensures var d := Execute(b, Start(policies), es);
            i < |d.attempts|
    ensures var d := Execute(b, Start(policies), es);
            var (content, request) := (d.log[n].content, d.attempts[i].request);
            && content.runId == request.runId
            && content.experiment == request.experiment && content.variant == request.variant
            && content.guardVerdicts == request.guardVerdicts
            && content.status == b.graph(request)
            && (exists startedAt :: Own(T.Submit(request, startedAt)) in es)
            && Own(T.Decide(i, content.traceId, content.recordedAt)) in es
            && content.claimId in d.store.tables.claims
            && d.store.tables.claims[content.claimId].policyNumber == request.policyNumber
            && d.store.tables.claims[content.claimId].incidentDate == request.incidentDate
            && d.store.tables.claims[content.claimId].amountCents == request.amountCents
  {
    var ts := Composed(b, policies, es);
    i := R.EveryEntryWasRequested(b, policies, ts, n);
  }

  // ---------------------------------------------------------------- the store's own part

  /** What the store sees of a run of the two together. */
  function StoreEvents(es: seq<Event>): seq<S.Event> {
    if es == [] then []
    else
      (match es[0]
       case Serve(message) => [S.Begin(message.key, message.operation)]
       case Statement(statement) => [statement]
       case _ => [])
      + StoreEvents(es[1..])
  }

  lemma {:induction false} StorePart(b: T.Build, d: Deployment, es: seq<Event>)
    requires Possible(b, d, es)
    ensures S.Possible(d.store, StoreEvents(es))
    ensures S.Execute(d.store, StoreEvents(es)) == Execute(b, d, es).store
    decreases |es|
  {
    if es != [] {
      StorePart(b, Step(b, d, es[0]), es[1..]);
      var rest := StoreEvents(es[1..]);
      if es[0].Serve? || es[0].Statement? {
        assert StoreEvents(es)[1..] == rest;
      } else {
        assert StoreEvents(es) == rest;
      }
    }
  }

  /** And what it did, whoever called and however often, was one write at a time. */
  lemma StoreIsSerial(b: T.Build, policies: set<string>, es: seq<Event>)
    requires Possible(b, Start(policies), es)
    ensures exists calls :: L.Linearizes(Seeded(policies), calls, Execute(b, Start(policies), es).store)
  {
    StorePart(b, Start(policies), es);
    L.Linearizable(policies, StoreEvents(es));
  }
}
