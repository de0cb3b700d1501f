/** The triager: its own store, the pipeline that writes it, and the systems it tells.

    Any number of runs are in progress at once, the same run possibly sent again or raced with itself.
    A run hands its claim over, decides, commits row and entry together, and only then tells the
    surrounding systems. It can fail anywhere. A request to the systems, once
    sent, may be executed now, later, twice or never, with or without its caller hearing of it; the
    systems themselves are the atomic store that `CoreSimLinear` shows them to be. */
module Triager {
  import opened CoreSimTables
  import opened Audit

  datatype RunRequest = RunRequest(
    runId: RunId,
    policyNumber: string,
    incidentDate: int,
    amountCents: int,
    experiment: string,
    variant: string,
    guardVerdicts: seq<DocumentVerdicts>)

  datatype TriageRun = TriageRun(
    runId: RunId,
    claimId: Uuid,
    experiment: string,
    variant: string,
    status: ClaimStatus,
    guardVerdicts: seq<DocumentVerdicts>,
    traceId: string,
    startedAt: int,
    completedAt: int)

  /** What the build fixes: the digest of the log, and where the graph leaves a claim. */
  datatype Build = Build(digest: Digest, graph: RunRequest -> ClaimStatus)

  /** The walking skeleton's graph: one node, which moves every claim to `triaged`. */
  const NODE := "noop"

  function NoOp(request: RunRequest): ClaimStatus {
    Triaged
  }

  datatype Failure = RefusedBySystems(refusal: Refusal) | AlreadyRecorded | UnexpectedResponse | Interrupted

  /** Where one run stands; what it has written in its open transaction stays in its stage. */
  datatype Stage =
    | TakingIn
    | TakenIn(claimId: Uuid)
    | Deciding(run: TriageRun)
    | RunInserted(run: TriageRun)
    | EntryAppended(run: TriageRun, entry: Entry)
    | Recorded(run: TriageRun)
    | Emitting(run: TriageRun)
    | Completed(run: TriageRun, emitted: ClaimStatus)
    | Failed(failure: Failure)

  datatype Attempt = Attempt(request: RunRequest, startedAt: int, stage: Stage)

  /** A request on its way to the systems: its idempotency key and what it asks. */
  datatype Message = Message(key: Key, operation: Operation)

  datatype World = World(
    systems: Tables,
    sent: set<Message>,
    runs: map<RunId, TriageRun>,
    log: seq<Entry>,
    attempts: seq<Attempt>)

  datatype Event =
    | Submit(request: RunRequest, startedAt: int)
    | Deliver(message: Message, id: Uuid, now: int)
    | ReplyClaim(i: nat, id: Uuid, now: int)
    | Decide(i: nat, traceId: string, now: int)
    | InsertRun(i: nat)
    | AppendEntry(i: nat)
    | CommitRun(i: nat)
    | Emit(i: nat)
    | ReplyStatus(i: nat, id: Uuid, now: int)
    | Fail(i: nat, failure: Failure)

  function Start(policies: set<string>): World {
    World(Seeded(policies), {}, map[], [], [])
  }

  function ClaimKey(runId: RunId): Key {
    runId + "/claim"
  }

  function StatusKey(runId: RunId): Key {
    runId + "/status"
  }

  /** No two runs, and no two calls of one run, share an idempotency key. */
  lemma KeysAreApart(a: RunId, b: RunId)
    ensures ClaimKey(a) != StatusKey(b)
    ensures ClaimKey(a) == ClaimKey(b) ==> a == b
    ensures StatusKey(a) == StatusKey(b) ==> a == b
  {
    var x, y := ClaimKey(a), StatusKey(b);
    assert x[|x| - 1] == 'm' && y[|y| - 1] == 's';
    assert ClaimKey(a)[..|ClaimKey(a)| - 6] == a && ClaimKey(b)[..|ClaimKey(b)| - 6] == b;
    assert StatusKey(a)[..|StatusKey(a)| - 7] == a && StatusKey(b)[..|StatusKey(b)| - 7] == b;
  }

  function ClaimMessage(request: RunRequest): Message {
    Message(ClaimKey(request.runId),
            CreateClaim(request.policyNumber, request.incidentDate, request.amountCents))
  }

  function StatusMessage(run: TriageRun): Message {
    Message(StatusKey(run.runId), RecordStatus(run.claimId, run.status))
  }

  function Asked(message: Message, id: Uuid, now: int): Call {
    Call(0, message.key, message.operation, id, now)
  }

  /** The audit entry's content is the run's own: its evidence is written from it, not beside it. */
  function Evidence(run: TriageRun): Content {
    Content(run.claimId, run.runId, NODE, Agent, run.status, run.guardVerdicts,
            run.experiment, run.variant, run.traceId, run.completedAt)
  }

  function NextEntry(b: Build, log: seq<Entry>, run: TriageRun): Entry {
    var (sequence, prevHash) := Continues(Last(log));
    Append(b.digest, prevHash, sequence, Evidence(run))
  }

  predicate InTransaction(a: Attempt) {
    a.stage.RunInserted? || a.stage.EntryAppended?
  }

  predicate Ended(a: Attempt) {
    a.stage.Completed? || a.stage.Failed?
  }

  /** Any unfinished run can be cut short; one that waits for the systems can also hear a refusal that they
      decided on earlier than they would now. */
  predicate CanFail(a: Attempt, failure: Failure) {
    && !Ended(a)
    && (failure.Interrupted? || (failure.RefusedBySystems? && (a.stage.TakingIn? || a.stage.Emitting?)))
  }

  /** The row another open transaction inserted under this run id, whose outcome an insert waits for. */
  ghost predicate RunBlocked(w: World, i: nat)
    requires i < |w.attempts| && w.attempts[i].stage.Deciding?
  {
    exists j :: 0 <= j < |w.attempts| && j != i && InTransaction(w.attempts[j])
      && w.attempts[j].stage.run.runId == w.attempts[i].stage.run.runId
  }

  /** The chain's one advisory lock, released only when its transaction ends. */
  ghost predicate ChainLocked(w: World) {
    exists j :: 0 <= j < |w.attempts| && w.attempts[j].stage.EntryAppended?
  }

  ghost predicate Enabled(w: World, e: Event) {
    match e
    case Submit(_, _) => true
    case Deliver(message, id, now) => message in w.sent && DrawsFresh(w.systems, Asked(message, id, now))
    case ReplyClaim(i, id, now) =>
      i < |w.attempts| && w.attempts[i].stage.TakingIn?
      && DrawsFresh(w.systems, Asked(ClaimMessage(w.attempts[i].request), id, now))
    case Decide(i, _, _) => i < |w.attempts| && w.attempts[i].stage.TakenIn?
    case InsertRun(i) => i < |w.attempts| && w.attempts[i].stage.Deciding? && !RunBlocked(w, i)
    case AppendEntry(i) => i < |w.attempts| && w.attempts[i].stage.RunInserted? && !ChainLocked(w)
    case CommitRun(i) => i < |w.attempts| && w.attempts[i].stage.EntryAppended?
    case Emit(i) => i < |w.attempts| && w.attempts[i].stage.Recorded?
    case ReplyStatus(i, id, now) =>
      i < |w.attempts| && w.attempts[i].stage.Emitting?
      && DrawsFresh(w.systems, Asked(StatusMessage(w.attempts[i].stage.run), id, now))
    case Fail(i, failure) => i < |w.attempts| && CanFail(w.attempts[i], failure)
  }

  function At(w: World, i: nat, stage: Stage): World
    requires i < |w.attempts|
  {
    w.(attempts := w.attempts[i := w.attempts[i].(stage := stage)])
  }

  function DecidedRun(b: Build, a: Attempt, traceId: string, now: int): TriageRun
    requires a.stage.TakenIn?
  {
    TriageRun(a.request.runId, a.stage.claimId, a.request.experiment, a.request.variant,
              b.graph(a.request), a.request.guardVerdicts, traceId, a.startedAt, now)
  }

  function Step(b: Build, w: World, e: Event): World
    requires Enabled(w, e)
  {
    match e
    case Submit(request, startedAt) =>
      w.(sent := w.sent + {ClaimMessage(request)},
         attempts := w.attempts + [Attempt(request, startedAt, TakingIn)])
    case Deliver(message, id, now) =>
      w.(systems := Once(w.systems, Asked(message, id, now)).0)
    case ReplyClaim(i, id, now) =>
      var (systems, answer) := Once(w.systems, Asked(ClaimMessage(w.attempts[i].request), id, now));
      At(w.(systems := systems), i,
         match answer
         case Refused(refusal) => Failed(RefusedBySystems(refusal))
         case Replied(response) => TakenIn(response.id))
    case Decide(i, traceId, now) =>
      At(w, i, Deciding(DecidedRun(b, w.attempts[i], traceId, now)))
    case InsertRun(i) =>
      var run := w.attempts[i].stage.run;
      At(w, i, if run.runId in w.runs then Failed(AlreadyRecorded) else RunInserted(run))
    case AppendEntry(i) =>
      var run := w.attempts[i].stage.run;
      At(w, i, EntryAppended(run, NextEntry(b, w.log, run)))
    case CommitRun(i) =>
      var (run, entry) := (w.attempts[i].stage.run, w.attempts[i].stage.entry);
      At(w.(runs := w.runs[run.runId := run], log := w.log + [entry]), i, Recorded(run))
    case Emit(i) =>
      var run := w.attempts[i].stage.run;
      At(w.(sent := w.sent + {StatusMessage(run)}), i, Emitting(run))
    case ReplyStatus(i, id, now) =>
      var run := w.attempts[i].stage.run;
      var (systems, answer) := Once(w.systems, Asked(StatusMessage(run), id, now));
      At(w.(systems := systems), i,
         match answer
         case Refused(refusal) => Failed(RefusedBySystems(refusal))
         case Replied(response) =>
           if response.ClaimHeld? then Completed(run, response.claim.status) else Failed(UnexpectedResponse))
    case Fail(i, failure) => At(w, i, Failed(failure))
  }

  ghost predicate Possible(b: Build, w: World, es: seq<Event>)
    decreases |es|
  {
    es == [] || (Enabled(w, es[0]) && Possible(b, Step(b, w, es[0]), es[1..]))
  }

  ghost function Execute(b: Build, w: World, es: seq<Event>): World
    requires Possible(b, w, es)
    decreases |es|
  {
    if es == [] then w else Execute(b, Step(b, w, es[0]), es[1..])
  }

  // ---------------------------------------------------------------- the store's invariant

  type Runs = map<RunId, TriageRun>

  /** The n-th entry is some committed run's evidence: its own content, and no other's. */
  ghost predicate Witnesses(runs: Runs, log: seq<Entry>, n: nat)
    requires n < |log|
  {
    var r := log[n].content.runId;
    log[n].sequence == n + 1 && r in runs && log[n].content == Evidence(runs[r])
  }

  ghost predicate Witnessed(runs: Runs, log: seq<Entry>, r: RunId)
    requires r in runs
  {
    runs[r].runId == r && exists n :: 0 <= n < |log| && log[n].content.runId == r
  }

  /** The log is an intact chain numbered from one, and it and the runs are each other's evidence:
      one entry a run, one run an entry, with the run's own content in it. */
  ghost predicate StoreSound(digest: Digest, runs: Runs, log: seq<Entry>) {
    && Verifies(digest, log)
    && (forall n :: 0 <= n < |log| ==> Witnesses(runs, log, n))
    && (forall m, n :: 0 <= m < n < |log| ==> log[m].content.runId != log[n].content.runId)
    && (forall r :: r in runs ==> Witnessed(runs, log, r))
    && |runs| == |log|
  }

  // ---------------------------------------------------------------- the systems' invariant

  /** A message only ever asks for a run's claim, or for the status a committed run decided. */
  ghost predicate Accountable(runs: Runs, message: Message) {
    || (exists r :: message.key == ClaimKey(r) && message.operation.CreateClaim?)
    || (exists r :: r in runs && message == StatusMessage(runs[r]))
  }

  /** This claim was created under the run's own key, from the run's own submission. */
  ghost predicate AboutItsClaim(t: Tables, request: RunRequest, claimId: Uuid) {
    var key := ClaimKey(request.runId);
    && key in t.keys
    && t.keys[key].fingerprint.canonical == ClaimMessage(request).operation
    && t.keys[key].response.id == claimId
    && claimId in t.claims
  }

  /** A run is what the graph decided about one request, and the claim is that request's. */
  ghost predicate About(b: Build, t: Tables, request: RunRequest, run: TriageRun) {
    && run.runId == request.runId
    && run.status == b.graph(request)
    && run.guardVerdicts == request.guardVerdicts
    && run.experiment == request.experiment && run.variant == request.variant
    && AboutItsClaim(t, request, run.claimId)
  }

  ghost predicate Answers(b: Build, t: Tables, run: TriageRun) {
    exists request :: About(b, t, request, run)
  }

  ghost predicate KeysWereSent(t: Tables, sent: set<Message>) {
    forall k :: k in t.keys ==> Message(k, t.keys[k].fingerprint.canonical) in sent
  }

  ghost predicate AllAccountable(runs: Runs, sent: set<Message>) {
    forall message :: message in sent ==> Accountable(runs, message)
  }

  ghost predicate AllAnswer(b: Build, t: Tables, runs: Runs) {
    forall r :: r in runs ==> Answers(b, t, runs[r])
  }

  // ---------------------------------------------------------------- the attempts' invariant

  /** What an attempt may rely on, stage by stage. */
  ghost predicate Orderly(b: Build, runs: Runs, log: seq<Entry>, t: Tables, sent: set<Message>, a: Attempt) {
    match a.stage
    case TakingIn => ClaimMessage(a.request) in sent
    case TakenIn(claimId) => AboutItsClaim(t, a.request, claimId)
    case Deciding(run) => About(b, t, a.request, run)
    case RunInserted(run) => About(b, t, a.request, run) && run.runId !in runs
    case EntryAppended(run, entry) =>
      About(b, t, a.request, run) && run.runId !in runs && entry == NextEntry(b, log, run)
    case Recorded(run) => IsCommitted(runs, run)
    case Emitting(run) => IsCommitted(runs, run) && StatusMessage(run) in sent
    case Completed(run, emitted) =>
      IsCommitted(runs, run) && emitted == run.status && StatusKey(run.runId) in t.keys
    case Failed(_) => true
  }

  ghost predicate IsCommitted(runs: Runs, run: TriageRun) {
    run.runId in runs && runs[run.runId] == run
  }

  /** Two open transactions never hold the same run id, and never the chain lock together. */
  ghost predicate Apart(x: Attempt, y: Attempt) {
    InTransaction(x) && InTransaction(y) ==>
      && x.stage.run.runId != y.stage.run.runId
      && !(x.stage.EntryAppended? && y.stage.EntryAppended?)
  }

  ghost predicate AllApart(attempts: seq<Attempt>) {
    forall i, j :: 0 <= i < |attempts| && 0 <= j < |attempts| && i != j ==> Apart(attempts[i], attempts[j])
  }

  ghost predicate AllOrderly(b: Build, w: World) {
    forall i :: 0 <= i < |w.attempts| ==> Orderly(b, w.runs, w.log, w.systems, w.sent, w.attempts[i])
  }

  ghost predicate Inv(b: Build, w: World) {
    && StoreSound(b.digest, w.runs, w.log)
    && Accounted(w.systems)
    && KeysWereSent(w.systems, w.sent)
    && AllAccountable(w.runs, w.sent)
    && AllAnswer(b, w.systems, w.runs)
    && AllOrderly(b, w)
    && AllApart(w.attempts)
  }

  // ---------------------------------------------------------------- preservation

  lemma GrowthKeepsOrderly(b: Build, runs: Runs, log: seq<Entry>, t: Tables, u: Tables, sent: set<Message>,
                           more: set<Message>, a: Attempt)
    requires Orderly(b, runs, log, t, sent, a) && Grows(t, u) && sent <= more
    ensures Orderly(b, runs, log, u, more, a)
  {
  }

  lemma GrowthKeepsAnswers(b: Build, t: Tables, u: Tables, runs: Runs)
    requires AllAnswer(b, t, runs) && Grows(t, u)
    ensures AllAnswer(b, u, runs)
  {
    forall r | r in runs ensures Answers(b, u, runs[r]) {
      assert Answers(b, t, runs[r]);
      var request :| About(b, t, request, runs[r]);
      assert About(b, u, request, runs[r]);
    }
  }

  /** One call executed at the systems, for a message that was sent. */
  lemma AskKeeps(b: Build, w: World, message: Message, id: Uuid, now: int)
    requires Inv(b, w) && message in w.sent && DrawsFresh(w.systems, Asked(message, id, now))
    ensures Inv(b, w.(systems := Once(w.systems, Asked(message, id, now)).0))
  {
    var t := Once(w.systems, Asked(message, id, now)).0;
    OnceGrows(w.systems, Asked(message, id, now));
    OnceAccounts(w.systems, Asked(message, id, now));
    AskKeepsKeys(w.systems, w.sent, message, id, now);
    GrowthKeepsAnswers(b, w.systems, t, w.runs);
    forall i | 0 <= i < |w.attempts| ensures Orderly(b, w.runs, w.log, t, w.sent, w.attempts[i]) {
      GrowthKeepsOrderly(b, w.runs, w.log, w.systems, t, w.sent, w.sent, w.attempts[i]);
    }
  }

  lemma AskKeepsKeys(t: Tables, sent: set<Message>, message: Message, id: Uuid, now: int)
    requires KeysWereSent(t, sent) && message in sent
    ensures KeysWereSent(Once(t, Asked(message, id, now)).0, sent)
  {
  }

  /** A step of one attempt that touches neither store: only its own stage has to be put right. */
  lemma LocalKeeps(b: Build, w: World, i: nat, stage: Stage)
    requires Inv(b, w) && i < |w.attempts|
    requires Orderly(b, w.runs, w.log, w.systems, w.sent, w.attempts[i].(stage := stage))
    requires AllApart(At(w, i, stage).attempts)
    ensures Inv(b, At(w, i, stage))
  {
  }

  /** Leaving a transaction, or staying out of one, brings nobody closer. */
  lemma OutsideIsApart(w: World, i: nat, stage: Stage)
    requires AllApart(w.attempts) && i < |w.attempts|
    requires !stage.RunInserted? && !stage.EntryAppended?
    ensures AllApart(At(w, i, stage).attempts)
  {
  }

  lemma SendKeeps(b: Build, w: World, message: Message)
    requires Inv(b, w) && Accountable(w.runs, message)
    ensures Inv(b, w.(sent := w.sent + {message}))
  {
    forall i | 0 <= i < |w.attempts|
      ensures Orderly(b, w.runs, w.log, w.systems, w.sent + {message}, w.attempts[i])
    {
      GrowthKeepsOrderly(b, w.runs, w.log, w.systems, w.systems, w.sent, w.sent + {message}, w.attempts[i]);
    }
  }

  lemma JoinKeeps(b: Build, w: World, a: Attempt)
    requires Inv(b, w) && Orderly(b, w.runs, w.log, w.systems, w.sent, a) && !InTransaction(a)
    ensures Inv(b, w.(attempts := w.attempts + [a]))
  {
    hide StoreSound, Accounted, KeysWereSent, AllAccountable, AllAnswer, Orderly;
  }

  lemma SubmitKeeps(b: Build, w: World, request: RunRequest, startedAt: int)
    requires Inv(b, w)
    ensures Inv(b, Step(b, w, Submit(request, startedAt)))
  {
    hide Inv;
    assert ClaimMessage(request).key == ClaimKey(request.runId);
    SendKeeps(b, w, ClaimMessage(request));
    JoinKeeps(b, w.(sent := w.sent + {ClaimMessage(request)}), Attempt(request, startedAt, TakingIn));
  }

  /** What the systems answer a run's claim call, on success: the claim under the run's own key. */
  lemma ClaimReplied(t: Tables, request: RunRequest, id: Uuid, now: int)
    requires Accounted(t) && DrawsFresh(t, Asked(ClaimMessage(request), id, now))
    ensures var (u, answer) := Once(t, Asked(ClaimMessage(request), id, now));
            answer.Replied? ==> AboutItsClaim(u, request, answer.response.id)
  {
    if ClaimKey(request.runId) in t.keys {
      assert TraceableKey(t, ClaimKey(request.runId));
    }
  }

  lemma StatusReplied(t: Tables, run: TriageRun, id: Uuid, now: int)
    requires Accounted(t) && DrawsFresh(t, Asked(StatusMessage(run), id, now))
    ensures var (u, answer) := Once(t, Asked(StatusMessage(run), id, now));
            answer.Replied? ==>
              && answer.response.ClaimHeld? && answer.response.claim.status == run.status
              && StatusKey(run.runId) in u.keys
  {
    if StatusKey(run.runId) in t.keys {
      assert TraceableKey(t, StatusKey(run.runId));
    }
  }

  lemma ReplyClaimKeeps(b: Build, w: World, i: nat, id: Uuid, now: int)
    requires Inv(b, w) && Enabled(w, ReplyClaim(i, id, now))
    ensures Inv(b, Step(b, w, ReplyClaim(i, id, now)))
  {
    var message := ClaimMessage(w.attempts[i].request);
    assert Orderly(b, w.runs, w.log, w.systems, w.sent, w.attempts[i]);
    ClaimReplied(w.systems, w.attempts[i].request, id, now);
    AskKeeps(b, w, message, id, now);
    var v := w.(systems := Once(w.systems, Asked(message, id, now)).0);
    var stage := Step(b, w, ReplyClaim(i, id, now)).attempts[i].stage;
    OutsideIsApart(v, i, stage);
    LocalKeeps(b, v, i, stage);
  }

  lemma ReplyStatusKeeps(b: Build, w: World, i: nat, id: Uuid, now: int)
    requires Inv(b, w) && Enabled(w, ReplyStatus(i, id, now))
    ensures Inv(b, Step(b, w, ReplyStatus(i, id, now)))
  {
    var message := StatusMessage(w.attempts[i].stage.run);
    assert Orderly(b, w.runs, w.log, w.systems, w.sent, w.attempts[i]);
    StatusReplied(w.systems, w.attempts[i].stage.run, id, now);
    AskKeeps(b, w, message, id, now);
    var v := w.(systems := Once(w.systems, Asked(message, id, now)).0);
    var stage := Step(b, w, ReplyStatus(i, id, now)).attempts[i].stage;
    OutsideIsApart(v, i, stage);
    LocalKeeps(b, v, i, stage);
  }

  lemma CommitKeepsStore(b: Build, runs: Runs, log: seq<Entry>, run: TriageRun)
    requires StoreSound(b.digest, runs, log) && run.runId !in runs
    ensures StoreSound(b.digest, runs[run.runId := run], log + [NextEntry(b, log, run)])
  {
    var after, longer, n := runs[run.runId := run], log + [NextEntry(b, log, run)], |log|;
    AppendVerifies(b.digest, log, Evidence(run));
    hide Verifies;
    assert n > 0 ==> Witnesses(runs, log, n - 1);
    forall m | 0 <= m < |longer|
      ensures Witnesses(after, longer, m) && (m < n ==> longer[m].content.runId != run.runId)
    {
      if m < n {
        assert Witnesses(runs, log, m);
      }
    }
    assert longer[n].content.runId == run.runId;
    forall r | r in after ensures Witnessed(after, longer, r) {
      if r != run.runId {
        assert Witnessed(runs, log, r);
        var m :| 0 <= m < n && log[m].content.runId == r;
        assert longer[m] == log[m];
      }
    }
  }

  /** Committing one run leaves every other attempt in order: none appended an entry beside it. */
  lemma CommitKeepsOther(b: Build, runs: Runs, log: seq<Entry>, t: Tables, sent: set<Message>, run: TriageRun,
                         a: Attempt)
    requires Orderly(b, runs, log, t, sent, a) && run.runId !in runs
    requires InTransaction(a) ==> a.stage.RunInserted? && a.stage.run.runId != run.runId
    ensures Orderly(b, runs[run.runId := run], log + [NextEntry(b, log, run)], t, sent, a)
  {
  }

  lemma CommitKeepsAccountable(runs: Runs, sent: set<Message>, run: TriageRun)
    requires AllAccountable(runs, sent) && run.runId !in runs
    ensures AllAccountable(runs[run.runId := run], sent)
  {
    var after := runs[run.runId := run];
    forall message | message in sent ensures Accountable(after, message) {
      assert Accountable(runs, message);
      if r :| r in runs && message == StatusMessage(runs[r]) {
        assert after[r] == runs[r];
      }
    }
  }

  lemma CommitKeepsAttempts(b: Build, w: World, i: nat)
    requires AllOrderly(b, w) && AllApart(w.attempts) && Enabled(w, CommitRun(i))
    ensures AllOrderly(b, Step(b, w, CommitRun(i)))
  {
    var u, a := Step(b, w, CommitRun(i)), w.attempts[i];
    assert Orderly(b, w.runs, w.log, w.systems, w.sent, a);
    forall j | 0 <= j < |u.attempts| ensures Orderly(b, u.runs, u.log, u.systems, u.sent, u.attempts[j]) {
      if j != i {
        assert Orderly(b, w.runs, w.log, w.systems, w.sent, w.attempts[j]);
        assert Apart(a, w.attempts[j]);
        CommitKeepsOther(b, w.runs, w.log, w.systems, w.sent, a.stage.run, w.attempts[j]);
      }
    }
  }

  lemma CommitKeepsAnswers(b: Build, t: Tables, runs: Runs, request: RunRequest, run: TriageRun)
    requires AllAnswer(b, t, runs) && About(b, t, request, run)
    ensures AllAnswer(b, t, runs[run.runId := run])
  {
  }

  lemma CommitKeeps(b: Build, w: World, i: nat)
    requires Inv(b, w) && Enabled(w, CommitRun(i))
    ensures Inv(b, Step(b, w, CommitRun(i)))
  {
    var run := w.attempts[i].stage.run;
    assert Orderly(b, w.runs, w.log, w.systems, w.sent, w.attempts[i]);
    CommitKeepsStore(b, w.runs, w.log, run);
    CommitKeepsAccountable(w.runs, w.sent, run);
    CommitKeepsAnswers(b, w.systems, w.runs, w.attempts[i].request, run);
    CommitKeepsAttempts(b, w, i);
    OutsideIsApart(w, i, Recorded(run));
  }

  lemma EmitKeeps(b: Build, w: World, i: nat)
    requires Inv(b, w) && Enabled(w, Emit(i))
    ensures Inv(b, Step(b, w, Emit(i)))
  {
    var run := w.attempts[i].stage.run;
    assert Orderly(b, w.runs, w.log, w.systems, w.sent, w.attempts[i]);
    assert StatusMessage(run) == StatusMessage(w.runs[run.runId]);
    SendKeeps(b, w, StatusMessage(run));
    var v := w.(sent := w.sent + {StatusMessage(run)});
    OutsideIsApart(v, i, Emitting(run));
    LocalKeeps(b, v, i, Emitting(run));
  }

  lemma EnterKeeps(b: Build, w: World, e: Event)
    requires Inv(b, w) && Enabled(w, e) && (e.InsertRun? || e.AppendEntry?)
    ensures Inv(b, Step(b, w, e))
  {
    hide StoreSound, Accounted, KeysWereSent, AllAccountable, AllAnswer;
    var stage := Step(b, w, e).attempts[e.i].stage;
    assert Orderly(b, w.runs, w.log, w.systems, w.sent, w.attempts[e.i]);
    forall j | 0 <= j < |w.attempts| && j != e.i
      ensures Apart(w.attempts[e.i].(stage := stage), w.attempts[j])
      ensures Apart(w.attempts[j], w.attempts[e.i].(stage := stage))
    {
      assert Apart(w.attempts[e.i], w.attempts[j]);
    }
    LocalKeeps(b, w, e.i, stage);
  }

  lemma DecideKeeps(b: Build, w: World, i: nat, traceId: string, now: int)
    requires Inv(b, w) && Enabled(w, Decide(i, traceId, now))
    ensures Inv(b, Step(b, w, Decide(i, traceId, now)))
  {
    var stage := Deciding(DecidedRun(b, w.attempts[i], traceId, now));
    hide StoreSound, Accounted, KeysWereSent, AllAccountable, AllAnswer;
    assert Orderly(b, w.runs, w.log, w.systems, w.sent, w.attempts[i]);
    OutsideIsApart(w, i, stage);
    LocalKeeps(b, w, i, stage);
  }

  lemma StepKeepsInv(b: Build, w: World, e: Event)
    requires Inv(b, w) && Enabled(w, e)
    ensures Inv(b, Step(b, w, e))
  {
    hide StoreSound, Accounted, KeysWereSent, AllAccountable, AllAnswer, Once, DrawsFresh;
    match e {
      case Submit(request, startedAt) => SubmitKeeps(b, w, request, startedAt);
      case Deliver(message, id, now) => AskKeeps(b, w, message, id, now);
      case ReplyClaim(i, id, now) => ReplyClaimKeeps(b, w, i, id, now);
      case ReplyStatus(i, id, now) => ReplyStatusKeeps(b, w, i, id, now);
      case CommitRun(i) => CommitKeeps(b, w, i);
      case Emit(i) => EmitKeeps(b, w, i);
      case InsertRun(_) => EnterKeeps(b, w, e);
      case AppendEntry(_) => EnterKeeps(b, w, e);
      case Decide(i, traceId, now) => DecideKeeps(b, w, i, traceId, now);
      case Fail(i, failure) =>
        OutsideIsApart(w, i, Failed(failure));
        LocalKeeps(b, w, i, Failed(failure));
    }
  }

  lemma {:induction false} ExecuteKeepsInv(b: Build, w: World, es: seq<Event>)
    requires Inv(b, w) && Possible(b, w, es)
    ensures Inv(b, Execute(b, w, es))
    decreases |es|
  {
    if es != [] {
      StepKeepsInv(b, w, es[0]);
      ExecuteKeepsInv(b, Step(b, w, es[0]), es[1..]);
    }
  }

  lemma Reachable(b: Build, policies: set<string>, es: seq<Event>)
    requires Possible(b, Start(policies), es)
    ensures Inv(b, Execute(b, Start(policies), es))
  {
    ExecuteKeepsInv(b, Start(policies), es);
  }
}
