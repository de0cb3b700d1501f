/** What sending a run again can do, and what it cannot. */
module TriagerRetries {
  import opened CoreSimTables
  import opened Audit
  import opened Triager
  import opened TriagerGuarantees

  /** An attempt gets into its transaction exactly when its run id is not recorded yet. */
  lemma InsertedExactlyWhenNew(b: Build, w: World, i: nat)
    requires Inv(b, w) && Enabled(w, InsertRun(i))
    ensures var run, after := w.attempts[i].stage.run, Step(b, w, InsertRun(i)).attempts[i].stage;
            && run.runId == w.attempts[i].request.runId
            && (after.RunInserted? <==> w.attempts[i].request.runId !in w.runs)
            && (after == Failed(AlreadyRecorded) <==> w.attempts[i].request.runId in w.runs)
  {
    hide StoreSound, Accounted, KeysWereSent, AllAccountable, AllAnswer, AllApart;
    assert Orderly(b, w.runs, w.log, w.systems, w.sent, w.attempts[i]);
  }

  predicate HoldsItsRow(a: Attempt) {
    a.stage.RunInserted? || a.stage.EntryAppended?
  }

  /** A run waits for its insert exactly while another open transaction holds a row under the same id, and for
      its entry exactly while anyone holds an entry not committed yet. */
  lemma WaitsExactlyFor(w: World, i: nat)
    requires i < |w.attempts|
    ensures w.attempts[i].stage.Deciding? ==>
      (Enabled(w, InsertRun(i)) <==>
       forall j :: 0 <= j < |w.attempts| && j != i && HoldsItsRow(w.attempts[j]) ==>
         w.attempts[j].stage.run.runId != w.attempts[i].stage.run.runId)
    ensures w.attempts[i].stage.RunInserted? ==>
      (Enabled(w, AppendEntry(i)) <==>
       forall j :: 0 <= j < |w.attempts| ==> !w.attempts[j].stage.EntryAppended?)
  {
  }

  /** Once one attempt of a run has committed, no other attempt of it ever does. */
  lemma OnlyOneAttemptCommits(b: Build, w: World, i: nat, es: seq<Event>, j: nat)
    requires Inv(b, w) && Enabled(w, CommitRun(i)) && Possible(b, Step(b, w, CommitRun(i)), es)
    requires Enabled(Execute(b, Step(b, w, CommitRun(i)), es), CommitRun(j))
    ensures w.attempts[i].stage.run.runId
         != Execute(b, Step(b, w, CommitRun(i)), es).attempts[j].stage.run.runId
  {
    var u := Step(b, w, CommitRun(i));
    var v := Execute(b, u, es);
    assert w.attempts[i].stage.run.runId in u.runs;
    StepKeepsInv(b, w, CommitRun(i));
    TheLogOnlyGrows(b, u, es);
    ExecuteKeepsInv(b, u, es);
    CommittingIsNew(b, v, j);
  }

  lemma CommittingIsNew(b: Build, w: World, j: nat)
    requires Inv(b, w) && Enabled(w, CommitRun(j))
    ensures w.attempts[j].stage.run.runId !in w.runs
  {
    hide StoreSound, Accounted, KeysWereSent, AllAccountable, AllAnswer, AllApart;
    assert Orderly(b, w.runs, w.log, w.systems, w.sent, w.attempts[j]);
  }

  // ---------------------------------------------------------------- an emission lost on its way

  /** A recorded run whose status the systems do not hold, and whose attempts are past emitting it: nothing
      of it is left but what may still be under way. */
  ghost predicate Abandoned(w: World, r: RunId) {
    && r in w.runs
    && StatusKey(r) !in w.systems.keys
    && forall i :: 0 <= i < |w.attempts| ==> !Emits(w.attempts[i], r)
  }

  predicate Emits(a: Attempt, r: RunId) {
    (a.stage.Recorded? || a.stage.Emitting?) && a.stage.run.runId == r
  }

  /** The message was lost: no delivery of it is among the events. */
  ghost predicate Undelivered(message: Message, es: seq<Event>) {
    forall k :: 0 <= k < |es| && es[k].Deliver? ==> es[k].message != message
  }

  /** Executing one call at the systems leaves no key but its own. */
  lemma OnlyItsKey(t: Tables, message: Message, id: Uuid, now: int, k: Key)
    requires k !in t.keys && k != message.key
    ensures k !in Once(t, Asked(message, id, now)).0.keys
  {
  }

  lemma StepStaysAbandoned(b: Build, w: World, e: Event, r: RunId)
    requires Inv(b, w) && Enabled(w, e) && Abandoned(w, r)
    requires e.Deliver? ==> e.message != StatusMessage(w.runs[r])
    ensures Abandoned(Step(b, w, e), r) && Step(b, w, e).runs[r] == w.runs[r]
  {
    hide Inv, Step, Enabled, Emits;
    StepKeepsCommitted(b, w, e);
    StatusKeyStaysAway(b, w, e, r);
    forall j | 0 <= j < |Step(b, w, e).attempts| ensures !Emits(Step(b, w, e).attempts[j], r) {
      if Emits(Step(b, w, e).attempts[j], r) {
        EmitsAfter(b, w, e, j, r);
        CommittingIsNew(b, w, e.i);
      }
    }
  }

  /** Only a commit makes an attempt one that emits. */
  lemma EmitsAfter(b: Build, w: World, e: Event, j: nat, r: RunId)
    requires Enabled(w, e) && j < |Step(b, w, e).attempts| && Emits(Step(b, w, e).attempts[j], r)
    ensures || (j < |w.attempts| && Emits(w.attempts[j], r))
            || (e.CommitRun? && Enabled(w, CommitRun(e.i)) && w.attempts[e.i].stage.run.runId == r)
  {
    hide Once;
  }

  lemma StatusKeyStaysAway(b: Build, w: World, e: Event, r: RunId)
    requires Inv(b, w) && Enabled(w, e) && Abandoned(w, r)
    requires e.Deliver? ==> e.message != StatusMessage(w.runs[r])
    ensures StatusKey(r) !in Step(b, w, e).systems.keys
  {
    hide Accounted, KeysWereSent, AllAnswer, AllApart, Verifies, Once;
    match e {
      case Deliver(message, id, now) =>
        SomeoneElses(b, w, message, r);
        OnlyItsKey(w.systems, message, id, now, StatusKey(r));
      case ReplyClaim(i, id, now) =>
        KeysAreApart(w.attempts[i].request.runId, r);
        OnlyItsKey(w.systems, ClaimMessage(w.attempts[i].request), id, now, StatusKey(r));
      case ReplyStatus(i, id, now) =>
        KeysAreApart(w.attempts[i].stage.run.runId, r);
        OnlyItsKey(w.systems, StatusMessage(w.attempts[i].stage.run), id, now, StatusKey(r));
      case _ =>
    }
  }

  /** Any message but a run's own status carries another key. */
  lemma SomeoneElses(b: Build, w: World, message: Message, r: RunId)
    requires Inv(b, w) && r in w.runs && message in w.sent && message != StatusMessage(w.runs[r])
    ensures message.key != StatusKey(r)
  {
    hide Accounted, AllAnswer, AllApart, AllOrderly, Verifies;
    assert Accountable(w.runs, message) && Witnessed(w.runs, w.log, r);
    if q :| q in w.runs && message == StatusMessage(w.runs[q]) {
      assert Witnessed(w.runs, w.log, q);
      KeysAreApart(q, r);
    } else {
      var q :| message.key == ClaimKey(q);
      KeysAreApart(q, r);
    }
  }

  /** An emission that was lost stays lost: however often the run is sent again, raced or crashed, its claim
      stays where it was received. */
  lemma {:induction false} LostForGood(b: Build, w: World, es: seq<Event>, r: RunId)
    requires Inv(b, w) && Possible(b, w, es) && Abandoned(w, r) && Undelivered(StatusMessage(w.runs[r]), es)
    ensures Abandoned(Execute(b, w, es), r) && Execute(b, w, es).runs[r] == w.runs[r]
    ensures !Moved(Execute(b, w, es), w.runs[r].claimId)
    decreases |es|
  {
    hide Inv, Enabled, Step, Emits, Accounted;
    if es == [] {
      UnkeyedClaimIsReceived(b, w, r);
    } else {
      UndeliveredTail(StatusMessage(w.runs[r]), es);
      hide Undelivered, Moved;
      StepStaysAbandoned(b, w, es[0], r);
      StepKeepsInv(b, w, es[0]);
      hide Abandoned;
      LostForGood(b, Step(b, w, es[0]), es[1..], r);
    }
  }

  lemma UndeliveredTail(message: Message, es: seq<Event>)
    requires Undelivered(message, es) && es != []
    ensures Undelivered(message, es[1..]) && (es[0].Deliver? ==> es[0].message != message)
  {
  }
}
