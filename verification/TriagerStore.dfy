/** The triager with its state updated in place: one method for each effect `TriagePipeline.run` has,
    on the run's own transaction, on the committed tables, or on the systems it calls. */
module TriagerStore {
  import opened CoreSimTables
  import opened Audit
  import opened Triager

  class TriagePipeline {
    const build: Build
    var systems: Tables
    var sent: set<Message>
    var runs: map<RunId, TriageRun>
    var log: seq<Entry>
    var attempts: seq<Attempt>

    function View(): World
      reads this
    {
      World(systems, sent, runs, log, attempts)
    }

    ghost predicate Valid()
      reads this
    {
      Inv(build, View())
    }

    constructor (build: Build, seed: set<string>)
      ensures Valid() && View() == Start(seed) && this.build == build
    {
      this.build := build;
      systems, sent, runs, log, attempts := Seeded(seed), {}, map[], [], [];
    }

    method MoveOn(i: nat, stage: Stage)
      requires i < |attempts|
      modifies this`attempts
      ensures View() == At(old(View()), i, stage)
    {
      attempts := attempts[i := attempts[i].(stage := stage)];
    }

    method RunRequested(request: RunRequest, startedAt: int) returns (i: nat)
      requires Valid()
      modifies this
      ensures Valid() && i == |old(attempts)| && View() == Step(build, old(View()), Submit(request, startedAt))
    {
      hide Inv;
      StepKeepsInv(build, View(), Submit(request, startedAt));
      i := |attempts|;
      sent := sent + {ClaimMessage(request)};
      attempts := attempts + [Attempt(request, startedAt, TakingIn)];
    }

    method TakeIn(i: nat, id: Uuid, now: int)
      requires Valid() && Enabled(View(), ReplyClaim(i, id, now))
      modifies this
      ensures Valid() && View() == Step(build, old(View()), ReplyClaim(i, id, now))
    {
      hide Inv, Once;
      StepKeepsInv(build, View(), ReplyClaim(i, id, now));
      var (after, answer) := Once(systems, Asked(ClaimMessage(attempts[i].request), id, now));
      systems := after;
      match answer {
        case Refused(refusal) => MoveOn(i, Failed(RefusedBySystems(refusal)));
        case Replied(response) => MoveOn(i, TakenIn(response.id));
      }
    }

    method DecideStatus(i: nat, traceId: string, now: int)
      requires Valid() && Enabled(View(), Decide(i, traceId, now))
      modifies this
      ensures Valid() && View() == Step(build, old(View()), Decide(i, traceId, now))
    {
      hide Inv;
      StepKeepsInv(build, View(), Decide(i, traceId, now));
      MoveOn(i, Deciding(DecidedRun(build, attempts[i], traceId, now)));
    }

    /** The insert of the run's row: refused, and the attempt over, when its id is in the table. */
    method RecordRun(i: nat)
      requires Valid() && Enabled(View(), InsertRun(i))
      modifies this
      ensures Valid() && View() == Step(build, old(View()), InsertRun(i))
    {
      hide Inv;
      StepKeepsInv(build, View(), InsertRun(i));
      var run := attempts[i].stage.run;
      if run.runId in runs {
        MoveOn(i, Failed(AlreadyRecorded));
      } else {
        MoveOn(i, RunInserted(run));
      }
    }

    /** Takes the chain lock, reads the last entry and links the next one onto it. */
    method AppendAuditEntry(i: nat)
      requires Valid() && Enabled(View(), AppendEntry(i))
      modifies this
      ensures Valid() && View() == Step(build, old(View()), AppendEntry(i))
    {
      hide Inv;
      StepKeepsInv(build, View(), AppendEntry(i));
      var run := attempts[i].stage.run;
      var (sequence, prevHash) := Continues(Last(log));
      MoveOn(i, EntryAppended(run, Append(build.digest, prevHash, sequence, Evidence(run))));
    }

    /** The run and its entry become durable together, and the chain lock is released. */
    method CommitTransaction(i: nat)
      requires Valid() && Enabled(View(), CommitRun(i))
      modifies this
      ensures Valid() && View() == Step(build, old(View()), CommitRun(i))
    {
      hide Inv;
      StepKeepsInv(build, View(), CommitRun(i));
      var run, entry := attempts[i].stage.run, attempts[i].stage.entry;
      runs := runs[run.runId := run];
      log := log + [entry];
      MoveOn(i, Recorded(run));
    }

    method SendStatus(i: nat)
      requires Valid() && Enabled(View(), Emit(i))
      modifies this
      ensures Valid() && View() == Step(build, old(View()), Emit(i))
    {
      hide Inv;
      StepKeepsInv(build, View(), Emit(i));
      var run := attempts[i].stage.run;
      sent := sent + {StatusMessage(run)};
      MoveOn(i, Emitting(run));
    }

    method HearStatus(i: nat, id: Uuid, now: int)
      requires Valid() && Enabled(View(), ReplyStatus(i, id, now))
      modifies this
      ensures Valid() && View() == Step(build, old(View()), ReplyStatus(i, id, now))
    {
      hide Inv, Once;
      StepKeepsInv(build, View(), ReplyStatus(i, id, now));
      var run := attempts[i].stage.run;
      var (after, answer) := Once(systems, Asked(StatusMessage(run), id, now));
      systems := after;
      match answer {
        case Refused(refusal) => MoveOn(i, Failed(RefusedBySystems(refusal)));
        case Replied(ClaimHeld(_, claim)) => MoveOn(i, Completed(run, claim.status));
        case Replied(_) => MoveOn(i, Failed(UnexpectedResponse));
      }
    }

    /** A request the systems execute with nobody waiting for the answer any more. */
    method ExecuteLate(message: Message, id: Uuid, now: int)
      requires Valid() && Enabled(View(), Deliver(message, id, now))
      modifies this
      ensures Valid() && View() == Step(build, old(View()), Deliver(message, id, now))
    {
      hide Inv;
      StepKeepsInv(build, View(), Deliver(message, id, now));
      systems := Once(systems, Asked(message, id, now)).0;
    }

    /** A crash, a timeout or an unreachable store: what the open transaction wrote is gone. */
    method GiveUp(i: nat, failure: Failure)
      requires Valid() && Enabled(View(), Fail(i, failure))
      modifies this
      ensures Valid() && View() == Step(build, old(View()), Fail(i, failure))
    {
      hide Inv;
      StepKeepsInv(build, View(), Fail(i, failure));
      MoveOn(i, Failed(failure));
    }
  }
}
