# Claim triage: a verified model

This project models the parts of the claim triage repository that have to be right under concurrency, crashes and
arithmetic, and proves what they promise. Six cores, one group of modules each:

* **The exactly-once write of the surrounding systems.** `CoreSimTables` is the atomic store of the unit tests, one key
  and one write at one instant. `CoreSimStore` is the Postgres store statement by statement: any number of attempts read
  the key, write their rows, insert the key and commit, roll back or die, in any order. `CoreSimLinear` proves that
  every interleaving is a serial run of the atomic store, with the same tables, the same answers and the order of
  attempts that did not overlap; `CoreSimAnswers` says who is answered what and what each call leaves, row by row;
  `CoreSimGuarantees` says what that means for callers, who waits for whom, and that nobody deadlocks; `CoreSimDatabase`
  is the store with its tables updated in place.
* **The audit log and the run that writes it.** `Audit` is the hash chain and its verification, `AuditFindings` what it
  says of each kind of tampering. `Triager` runs the pipeline against its own store and the surrounding systems, with
  runs raced, re-sent, crashed and answered late or never; `TriagerGuarantees` proves the log is the evidence for every
  status the systems hold, and what a failed emission leaves behind; `TriagerRecords` traces every recorded field back
  to the request and its decision; `TriagerRetries` says what sending a run again can do; `TriagerOverStore` puts the
  pipeline over the interleaved store and carries the guarantees down to it; `TriagerStore` is the pipeline updating its
  state in place.
* **The rate limiter.** `RateLimit` is one token bucket, `Limiters` the bounded table of them, and `LimitersGuarantees`
  what the table keeps of one bucket per caller and what an eviction costs; `LimitersNewcomers` is the burst of a caller
  it does not hold.
* **The evaluation arithmetic.** `AveragePrecision` proves the tie-grouping loop equal to an order-free mean, and
  `RaisedPositives` when a higher score for a positive is safe; `Confusion`, `Scoring`, `Retrieval` and `Classification`
  prove the counts conserved and the totals independent of the order they are added in; `ExtractionGuarantees`,
  `RetrievalGuarantees` and `ClassificationGuarantees` say what each metric means of the cases and answers themselves;
  `Measuring` names them for the gate, and `MeasuringNames` says which stands under which name.
* **The gate and its record.** `Gate` judges a run, `Baselines` records it, `Harness` is the run that does both;
  `GateVerdicts` and `HarnessExits` say what a row, a failure, an exit and a record read, said of the files and the
  numbers; `GateGuarantees` and `HarnessGuarantees` prove when a run passes, that a run stands against its own record,
  and the ratchet over any sequence of runs.
* **The word wrapper.** `TextWords` says what the words of a text are, and `Wrapping` proves the greedy layout keeps
  them all on the fewest lines.

`Options`, `Tallies`, `Ratios`, `Rounding` and `SortedNames` hold what several of them use.

What is trusted: the database reads committed rows, makes an insert wait on an uncommitted duplicate key, holds row
locks and advisory locks to the end of a transaction, and commits a transaction whole. The request fingerprint is kept
symbolically and the audit digest is a parameter without collisions that never answers the genesis hash. Floating point
is `real`; rounding is any function that lands on the grid within half a unit and keeps order (rounding half up is one:
`Rounding.HalfUpRounds`). Identifiers, instants, trace ids, the clock, the value comparison and the class of blank
characters are inputs.

## Where the code and the promises differ

* `docs/adr/0005-audit-entry-commits-with-the-state-change.md` says that a retry under the key of the emission closes
  the gap a failed emission leaves. The code re-sends a recorded run into `record_run`, which fails on the run id
  before the emission is reached. `TriagerGuarantees.ARetryDoesNotCloseTheGap` gives the run, and
  `TriagerGuarantees.EmissionIsNotRetried` the exact condition: the status can still reach the systems if and only if
  it was sent already, or an attempt of the run stands between its commit and its emission.
* A bucket stores an earlier clock reading as it comes, so on a clock that steps back the same second is paid for twice
  (`RateLimit.BackwardsClockPaysTwice`). The bound on a stretch of takes holds, for every stretch, limit and bucket,
  exactly when the readings never step back (`RateLimit.BoundHoldsExactlyOnForwardClocks`), as those of the monotonic
  clock the source reads do not; on any clock, what is admitted is paid for by the moves forwards
  (`RateLimit.TokensAreConservedOnAnyClock`).
* `src/claim_triage/evaluation/baselines.py` keeps six decimals and says that nothing is lost by it. That is so exactly
  from a tolerance of half a millionth on: below it a run can regress against its own record
  (`Baselines.RecordingIsNotARegression`).
* A higher score for a positive is not always a larger area. What lowers it is passing positives that tie: a raise is
  safe against every set of negatives if no two positives, the raised one included, hold the same score from the old one
  up to the new one (`RaisedPositives.RaisingUntiedNeverHurts`), and, where no other positive holds the new score, only
  then (`RaisedPositives.RaisingIsSafeExactlyWhen`).
* `_failures` in `src/claim_triage/evaluation/gate.py` says it lists the rules in the order they are declared. The
  declaration puts degradation first; the code, and the model, list the floor first.

## Model

| member | source | states |
|---|---|---|
| `CoreSimTables.InMemoryCoreSim.RunOnce` | tests/support.py:186-200 | a call leaves the dictionaries and answers as the atomic write does: replay the key, refuse another request under it, or write and remember |
| `CoreSimTables.OnceGrows` | src/claim_triage/core_sim/store.py:270-365 | an atomic write keeps every row and key and only appends to histories |
| `CoreSimTables.OnceAccounts` | src/claim_triage/core_sim/store.py:270-365 | every claim keeps one creating key and one transition per status key, every key remembers the row its own request asked for, and two status keys of a claim account for different transitions; a claim is on a policy held, a document or party of a claim held |
| `CoreSimTables.RunAccounts` | tests/support.py:186-200 | the same accounts hold after every prefix of any serial run |
| `CoreSimAnswers.WhoIsRefused` | src/claim_triage/core_sim/store.py:272-278 | in a serial run, under a key not used yet: a claim is refused exactly for a policy that was not seeded, any other write exactly for a claim not in the tables, nobody else is refused, and a refusal writes nothing |
| `CoreSimAnswers.WhatCreatingLeaves` | src/claim_triage/core_sim/store.py:270-298 | a new claim stands at received with that one transition and what was submitted; the reply, the claims and the remembered key say so, and nothing else changes |
| `CoreSimAnswers.WhatRecordingLeaves` | src/claim_triage/core_sim/store.py:300-321 | a recorded status moves its claim there, one transition longer; the reply, the claims and the key say so, and nothing else changes |
| `CoreSimAnswers.WhatAttachingLeaves` | src/claim_triage/core_sim/store.py:323-346 | an attached document is the row that was asked for; the reply, the documents and the key say so, and nothing else changes |
| `CoreSimAnswers.WhatAPartyLeaves` | src/claim_triage/core_sim/store.py:348-365 | a recorded party is the row that was asked for; the reply, the parties and the key say so, and nothing else changes |
| `CoreSimAnswers.UsedExactlyAfterSuccess` | src/claim_triage/core_sim/store.py:380-386 | a key is in the table exactly when an earlier call under it succeeded |
| `CoreSimAnswers.HeldExactlyAfterCreation` | src/claim_triage/core_sim/store.py:270-298 | a claim is in the tables exactly when an earlier call was answered with its creation |
| `CoreSimAnswers.AnswersFollow` | src/claim_triage/core_sim/store.py:367-413 | every answer of a serial run follows from the answers before it: the first success under a key is repeated to its own request and refused to any other, and until then only an unknown policy, or a claim nobody was answered with, is refused |
| `CoreSimStore.CommitIsOnce` | src/claim_triage/core_sim/store.py:380-396 | a commit, whatever ran between its statements, is one atomic write on the tables committed by then, with the same answer |
| `CoreSimStore.WriteKeepsPerform` | src/claim_triage/core_sim/store.py:300-365 | two writes whose row locks do not exclude each other commute: committing one leaves the other's tentative answer right |
| `CoreSimStore.StepKeepsInv` | src/claim_triage/core_sim/store.py:367-413 | every statement of every attempt keeps tentative writes current, apart from each other, and keyed right |
| `CoreSimStore.ExecuteKeepsInv` | src/claim_triage/core_sim/store.py:367-413 | so does every interleaving |
| `CoreSimLinear.PlaceCall` | src/claim_triage/core_sim/store.py:376-396 | an answered attempt's call can take its place in the serial run, in the middle for a refusal, without changing any other answer or the real-time order |
| `CoreSimLinear.StepSimulates` | src/claim_triage/core_sim/store.py:367-413 | each statement of an attempt is matched by the serial run, which grows by one call when the attempt is answered |
| `CoreSimLinear.Linearizable` | src/claim_triage/core_sim/store.py:367-413 | for every interleaving with crashes and retries there is a serial run of the atomic store with the committed tables, the answers given, and the order of attempts that did not overlap |
| `CoreSimLinear.EffectOf` | src/claim_triage/core_sim/store.py:380-386 | a remembered key was written by a call of the serial run, and remembers that call's answer |
| `CoreSimLinear.OneEffectPerKey` | src/claim_triage/core_sim/store.py:405-413 | after the call that wrote, every call under the key changes nothing: the same request gets the first response, another is refused |
| `CoreSimAnswers.AttemptsAreAnsweredByHistory` | src/claim_triage/core_sim/store.py:367-413 | every answered attempt of any interleaving has its place in one serial order in which its answer is the one its predecessors call for |
| `CoreSimAnswers.AttemptsAreRefusedRightly` | src/claim_triage/core_sim/store.py:272-278 | in every reachable state: an attempt not refused for its key is refused for its policy exactly when it asked for a claim on a policy not seeded; a success is the row asked for, about a claim that is held |
| `CoreSimAnswers.WhatPerformingAnswers` | src/claim_triage/core_sim/store.py:270-365 | the statement that performs a write refuses exactly the unknown policy and the unknown claim, and otherwise holds the row asked for, uncommitted |
| `CoreSimAnswers.SerialOrderIsRealTime` | src/claim_triage/core_sim/store.py:376-396 | in any such serial order a call answered by some moment comes before every call begun after it |
| `CoreSimGuarantees.AnswersComeFromTheKey` | src/claim_triage/core_sim/store.py:387-413 | the re-read after a unique violation always finds the record, so the re-raise is unreachable; a success is the remembered response verbatim |
| `CoreSimGuarantees.NoUpdateLostOrDoubled` | src/claim_triage/core_sim/store.py:300-321 | in every reachable state a claim stands where its history ends, and its history is one longer than its committed status keys are many |
| `CoreSimGuarantees.NoRowIsOrphaned` | src/claim_triage/core_sim/store.py:270-365 | in every reachable state a claim is on a seeded policy, and every document and party is of a claim held |
| `CoreSimGuarantees.CommittedOnlyGrows` | src/claim_triage/core_sim/store.py:270-365 | over any further interleaving rows stay, keys keep their answer and histories are only appended to |
| `CoreSimGuarantees.StepsAreBounded` | src/claim_triage/core_sim/store.py:376-396 | every step takes its own attempt strictly nearer its end, four at most, and moves no other |
| `CoreSimGuarantees.NeverStuck` | src/claim_triage/core_sim/store.py:376-396 | while any attempt is unfinished, some attempt can take a step of its own: no deadlock |
| `CoreSimGuarantees.WaitsExactlyFor` | src/claim_triage/core_sim/store.py:300-391 | a write on a claim waits exactly for an open write on the same claim of which one records a status, a new claim for nobody, a key exactly for an uncommitted insert of the same key |
| `CoreSimGuarantees.EveryoneCanFinish` | src/claim_triage/core_sim/store.py:376-396 | from any state all attempts can be brought to their end, none of them crashing, within the steps they have left |
| `CoreSimDatabase.PostgresCoreSim.Connect` | src/claim_triage/core_sim/store.py:416-420 | a new attempt joins; the tables stay; the invariant holds |
| `CoreSimDatabase.PostgresCoreSim.RememberKey` | src/claim_triage/core_sim/store.py:398-413 | the read of the key, first or after the rollback, is that step of the protocol and keeps its invariant |
| `CoreSimDatabase.PostgresCoreSim.PerformWrite` | src/claim_triage/core_sim/store.py:270-365 | the write's rows stay tentative, or the refusal is answered; the invariant is kept |
| `CoreSimDatabase.PostgresCoreSim.InsertIdempotencyKey` | src/claim_triage/core_sim/store.py:381-391 | the key insert, and the rollback on a committed duplicate, is that step and keeps the invariant |
| `CoreSimDatabase.PostgresCoreSim.CommitTransaction` | src/claim_triage/core_sim/store.py:416-420 | row, key and response become visible together, and the invariant is kept |
| `CoreSimDatabase.PostgresCoreSim.Abort` | src/claim_triage/core_sim/store.py:416-420 | an attempt that dies takes its tentative rows with it |
| `Audit.Verify` | src/claim_triage/triage/audit.py:111-129 | intact exactly when no entry has a problem, and otherwise names the first broken entry and what breaks there |
| `Audit.PrefixesVerify` | src/claim_triage/triage/audit.py:111-129 | every prefix of an intact chain is intact |
| `Audit.AppendVerifies` | src/claim_triage/triage/audit.py:87-108 | an append onto an intact chain leaves it intact |
| `Audit.HonestChainVerifies` | src/claim_triage/triage/audit.py:87-108 | an honestly appended chain verifies, holds the contents in order and is numbered 1, 2, 3 and on |
| `Audit.HeadPinsTheLog` | src/claim_triage/triage/audit.py:82-129 | two intact chains that end in the same hash are equal entry by entry, lengths included |
| `Audit.HashesDiffer` | src/claim_triage/triage/audit.py:82-129 | an intact chain carries no hash twice |
| `Audit.OnlyPrefixesVerify` | src/claim_triage/triage/audit.py:111-129 | of the sequences made of a log's own entries, in any order and with any repetition, exactly the prefixes of the log verify |
| `Audit.SingleEditDetected` | src/claim_triage/triage/audit.py:111-129 | one entry replaced: the chain still verifies exactly when it is the last one, hashed from its own content, linked where the old one was, and numbered above its predecessor if it has one; it may skip numbers |
| `AuditFindings.WhatIsNamed` | src/claim_triage/triage/audit.py:111-129 | what is said of the first broken entry: no predecessor, a number that does not rise, a link that does not reach, and only of one that links right, that it was altered |
| `AuditFindings.RemovalIsNamed` | src/claim_triage/triage/audit.py:121-126 | entries taken out: the first one behind the gap is named, as missing its predecessor at the start of the log and otherwise as not linking to the entry before the gap |
| `AuditFindings.RepetitionIsNamed` | src/claim_triage/triage/audit.py:123-124 | an earlier entry put in again is named as out of order behind the entry it follows |
| `AuditFindings.MoveIsNamed` | src/claim_triage/triage/audit.py:121-126 | a later entry moved forwards is named for the link that does not reach it |
| `AuditFindings.EditIsNamed` | src/claim_triage/triage/audit.py:127-128 | an entry whose content was changed is named as altered |
| `AuditFindings.RehashedEditIsNamed` | src/claim_triage/triage/audit.py:125-126 | hashed again it passes, and the entry behind it is named, whose link it broke |
| `Triager.KeysAreApart` | src/claim_triage/triage/pipeline.py:122-126 | no two runs, and no two calls of one run, share an idempotency key |
| `Triager.CommitKeepsStore` | src/claim_triage/triage/store.py:224-270 | committing a run with its entry keeps the chain intact and runs and entries one to one |
| `Triager.StepKeepsInv` | src/claim_triage/triage/pipeline.py:61-167 | every step of every run, every late delivery and every failure keeps the invariant of store, systems and attempts |
| `Triager.ExecuteKeepsInv` | src/claim_triage/triage/pipeline.py:61-167 | so does every interleaving |
| `TriagerGuarantees.TheLogIsTheEvidence` | src/claim_triage/triage/store.py:175-191 | in every reachable state the log verifies, is numbered 1..n, and its entries and the committed runs pair off, each entry with its run's id, claim, status, verdicts, experiment, variant, trace and instant of completion, in the agent's name at the one node |
| `TriagerRecords.EveryRunWasRequested` | src/claim_triage/triage/pipeline.py:61-141 | every committed run is a submitted request's: its id, experiment, variant, verdicts, the graph's status, the instant of its submission, the trace and the instant of its decision, and a claim held with the policy, incident and amount asked for |
| `TriagerRecords.EveryEntryWasRequested` | src/claim_triage/triage/pipeline.py:143-159 | so is every entry of the log: its verdicts, experiment and variant are those of a request that was submitted, its trace and instant those of its decision |
| `TriagerGuarantees.TheLogOnlyGrows` | src/claim_triage/triage/store.py:224-270 | log and runs are append-only over any further interleaving |
| `TriagerGuarantees.StatusKeyHasARun` | src/claim_triage/triage/pipeline.py:161-167 | a status key the systems hold is a committed run's, for that run's claim and status |
| `TriagerGuarantees.OneRunPerClaim` | src/claim_triage/triage/pipeline.py:122-126 | a claim was created under one run id, that run id created no other claim, and no other run is about it |
| `TriagerGuarantees.EveryStatusHasEvidence` | src/claim_triage/triage/pipeline.py:143-167 | a claim's history is [received], or [received, s] where a committed run and its audit entry say s about that claim |
| `TriagerGuarantees.HistoriesOfTheSkeleton` | src/claim_triage/triage/pipeline.py:128-141 | with the graph of this build the history is [received] or [received, triaged] |
| `TriagerGuarantees.CompletionIsTrue` | src/claim_triage/triage/pipeline.py:90-91 | a caller told that its run completed was told what the systems hold and the committed run says |
| `TriagerGuarantees.NeverStuck` | src/claim_triage/triage/store.py:241-250 | while any run is unfinished some run can go on without failing: the chain lock and the run id never deadlock |
| `TriagerGuarantees.StaysSilent` | src/claim_triage/triage/pipeline.py:90-91 | a committed run whose status nobody sent and nobody is about to send stays so for ever, whatever is re-sent |
| `TriagerGuarantees.EmissionIsNotRetried` | src/claim_triage/triage/pipeline.py:90-91 | a committed run's status can still take effect if and only if it was sent or is about to be |
| `TriagerGuarantees.ARetryDoesNotCloseTheGap` | src/claim_triage/triage/store.py:224-239 | for every request against a known policy: a run that dies after its commit and is sent again is refused as recorded, and its claim can never leave received |
| `TriagerRetries.InsertedExactlyWhenNew` | src/claim_triage/triage/store.py:224-239 | an attempt gets into its transaction exactly when its run id is not recorded, and is refused exactly when it is |
| `TriagerRetries.WaitsExactlyFor` | src/claim_triage/triage/store.py:224-250 | an insert waits exactly for an open transaction with the same run id, an entry exactly for an entry not committed yet |
| `TriagerRetries.OnlyOneAttemptCommits` | src/claim_triage/triage/store.py:175-191 | after one attempt of a run commits, no other attempt of it ever does |
| `TriagerRetries.LostForGood` | src/claim_triage/triage/pipeline.py:90-91 | an emission that was sent and lost stays lost: no re-sending, race or crash moves the claim, unless the lost message is delivered after all |
| `TriagerOverStore.CommitIsADelivery` | src/claim_triage/core_sim/store.py:380-396 | a commit of the interleaved store is one late delivery to the atomic one |
| `TriagerOverStore.HearingIsAReply` | src/claim_triage/triage/pipeline.py:96-99 | an answer that reaches its caller late is what the atomic store answers now, or a refusal |
| `TriagerOverStore.Composed` | src/claim_triage/triage/pipeline.py:61-167 | every run of the pipeline over the interleaved store is a run over the atomic one, with the same tables, runs, log and attempts, and the same submissions and decisions |
| `TriagerOverStore.EveryStatusHasEvidence` | src/claim_triage/triage/pipeline.py:143-167 | so every status in the interleaved store's own tables has a committed run and audit entry that say it |
| `TriagerOverStore.TheLogIsTheEvidence` | src/claim_triage/triage/store.py:175-191 | and the log verifies and pairs off with the runs, field by field |
| `TriagerOverStore.EveryEntryWasRequested` | src/claim_triage/triage/pipeline.py:143-159 | what an entry says was submitted and decided, of a claim the interleaved store holds as it was asked for |
| `TriagerOverStore.StoreIsSerial` | src/claim_triage/core_sim/store.py:367-413 | under the pipeline's own traffic, too, the store's run is a serial run of the atomic one |
| `TriagerStore.TriagePipeline.RunRequested` | src/claim_triage/triage/pipeline.py:61-73 | a run starts and its claim call is on its way; the invariant holds |
| `TriagerStore.TriagePipeline.TakeIn` | src/claim_triage/triage/pipeline.py:122-126 | the answered claim call is that step of the run and keeps the invariant |
| `TriagerStore.TriagePipeline.DecideStatus` | src/claim_triage/triage/pipeline.py:128-141 | the graph's status makes the run, and the invariant is kept |
| `TriagerStore.TriagePipeline.RecordRun` | src/claim_triage/triage/store.py:224-239 | the run's row is inserted in its transaction, or fails it when the run id is there |
| `TriagerStore.TriagePipeline.AppendAuditEntry` | src/claim_triage/triage/store.py:241-270 | under the chain lock the entry links onto the last committed one |
| `TriagerStore.TriagePipeline.CommitTransaction` | src/claim_triage/triage/store.py:175-191 | run and entry become durable together |
| `TriagerStore.TriagePipeline.SendStatus` | src/claim_triage/triage/pipeline.py:161-167 | only a committed run's status is sent |
| `TriagerStore.TriagePipeline.HearStatus` | src/claim_triage/triage/pipeline.py:161-167 | the systems' answer ends the run as completed, refused or unexpected |
| `TriagerStore.TriagePipeline.GiveUp` | src/claim_triage/triage/store.py:186-191 | a failure leaves nothing of the open transaction |
| `RateLimit.Bucket.Take` | src/claim_triage/guards/rate_limit.py:68-99 | a take refills, spends or refuses, and names the wait, as the specification of one take does |
| `RateLimit.TokensStayInRange` | src/claim_triage/guards/rate_limit.py:68-76 | over any takes, on any clock, the tokens stay between nothing and the burst |
| `RateLimit.TokensAreConservedOnAnyClock` | src/claim_triage/guards/rate_limit.py:68-99 | on any clock, what was admitted and what is left never exceed what was there and what every move forwards gave back |
| `RateLimit.TokensAreConserved` | src/claim_triage/guards/rate_limit.py:68-99 | on a clock that does not step back that is the time elapsed |
| `RateLimit.StretchIsBounded` | src/claim_triage/guards/rate_limit.py:68-99 | any stretch of takes admits at most a burst and the refill of the time it spans |
| `RateLimit.TokensAreHonoured` | src/claim_triage/guards/rate_limit.py:68-86 | as many takes as there are whole tokens are all admitted, however close together |
| `RateLimit.OneAtOnce` | src/claim_triage/guards/rate_limit.py:62-99 | of takes at one reading a full bucket admits `burst`, and tells each one after them to wait for one whole token |
| `RateLimit.SteadyCallersAreAdmitted` | src/claim_triage/guards/rate_limit.py:68-86 | takes that each leave time for a token to come back are all admitted |
| `RateLimit.RefusalLeavesNoTrace` | src/claim_triage/guards/rate_limit.py:88-99 | after a refusal the bucket levels as if it had not been asked, at every later reading |
| `RateLimit.RefusedTakesAreInvisible` | src/claim_triage/guards/rate_limit.py:68-99 | leaving any refused takes out of a run of takes changes no other answer |
| `RateLimit.WaitIsExact` | src/claim_triage/guards/rate_limit.py:88-99 | after a refusal the next take is admitted if and only if it comes no earlier than the wait named |
| `RateLimit.RetryAfterSuffices` | src/claim_triage/api/surface.py:111-115 | waiting the whole seconds of the header is enough on an undisturbed bucket |
| `RateLimit.RetryAfterIsLeast` | src/claim_triage/api/surface.py:111-115 | the header is the least whole number of seconds, one at least, that is no less than the wait |
| `RateLimit.SteppingBackBreaksTheBound` | src/claim_triage/guards/rate_limit.py:71-73 | at any refill, two takes on a full burst of two with the second reading earlier exceed their bound |
| `RateLimit.BoundHoldsExactlyOnForwardClocks` | src/claim_triage/guards/rate_limit.py:68-99 | every stretch of some readings stays within its bound, for every limit and bucket, if and only if the readings never step back |
| `RateLimit.BackwardsClockPaysTwice` | src/claim_triage/guards/rate_limit.py:71-73 | an instance: the same second paid for twice |
| `Limiters.Limiters.MoveToEnd` | src/claim_triage/guards/rate_limit.py:136-137 | a known caller goes to the end, tokens untouched and every other caller in order |
| `Limiters.Limiters.Shrink` | src/claim_triage/guards/rate_limit.py:134-135 | what remains is the last `keys` slots of the table |
| `Limiters.Limiters.TakeFor` | src/claim_triage/guards/rate_limit.py:129-138 | one take leaves the table and answers as serving it does, with one bucket object per caller |
| `LimitersGuarantees.TableHoldsTheMostRecent` | src/claim_triage/guards/rate_limit.py:129-138 | the table always holds exactly the most recently seen callers, in recency order |
| `LimitersGuarantees.StillThere` | src/claim_triage/guards/rate_limit.py:132-137 | a caller is still in the table if and only if fewer than `keys` distinct others were seen since |
| `LimitersGuarantees.AnsweredAsIfPrivate` | src/claim_triage/guards/rate_limit.py:129-138 | a caller with fewer than `keys` others between its takes is answered as by a private bucket never dropped |
| `LimitersNewcomers.NewcomersGetABurst` | src/claim_triage/guards/rate_limit.py:129-138 | a caller the table does not hold, new or dropped, is admitted `burst` times at one reading and then told to wait for one token; a table of no size admits everyone every time |
| `LimitersGuarantees.EvictionsArePaidInBursts` | src/claim_triage/guards/rate_limit.py:129-138 | from any table of any size, admissions are within what could be spent, the refill of the time and one burst per eviction |
| `LimitersGuarantees.StretchOfTakesIsBounded` | src/claim_triage/guards/rate_limit.py:129-138 | with e evictions a caller's admissions over a stretch are at most 1 + e bursts and the refill of its time, for every `keys` |
| `AveragePrecision.Sorted` | src/claim_triage/evaluation/metrics.py:196-200 | the ranking is a permutation of the cases, highest score first |
| `AveragePrecision.AreaUnder` | src/claim_triage/evaluation/metrics.py:201-216 | the tie-grouping loop adds up, for each positive, the precision at its own score |
| `AveragePrecision.AveragePrecision` | src/claim_triage/evaluation/metrics.py:182-216 | none without both labels, else the mean over positives of (positives scoring at least as high) / (cases scoring at least as high) |
| `AveragePrecision.OrderIsIgnored` | src/claim_triage/evaluation/metrics.py:182-188 | the result does not depend on the order of the scores |
| `AveragePrecision.AreaIsAProportion` | src/claim_triage/evaluation/metrics.py:182-216 | it lies in (0, 1], and is 1 exactly when every positive is strictly above every negative |
| `AveragePrecision.TiesGiveThePrevalence` | src/claim_triage/evaluation/metrics.py:185-187 | when all scores tie it is the share of positives |
| `AveragePrecision.LoweringANegativeNeverHurts` | src/claim_triage/evaluation/metrics.py:202-216 | lowering a negative's score never lowers it |
| `RaisedPositives.RaisingUntiedNeverHurts` | src/claim_triage/evaluation/metrics.py:202-216 | raising a positive never lowers it, whatever the negatives, where no two positives tie from the old score up to the new |
| `RaisedPositives.RaisingPastATieHurts` | src/claim_triage/evaluation/metrics.py:202-216 | past a tie, to a score no positive holds, one negative at that score makes it fall |
| `RaisedPositives.RaisingIsSafeExactlyWhen` | src/claim_triage/evaluation/metrics.py:202-216 | a raise to a score no other positive holds lowers it for no negatives at all if and only if no two positives tie on the way |
| `RaisedPositives.JoiningCanOutweighATie` | src/claim_triage/evaluation/metrics.py:202-216 | an instance where the new score is held: two positives tie on the way, and no negatives at all lower the area |
| `RaisedPositives.RaisingAPositiveCanHurt` | src/claim_triage/evaluation/metrics.py:202-216 | an instance: two tied positives passed, with the negative at the new score or above it |
| `Confusion.F1IsTheHarmonicMean` | src/claim_triage/evaluation/metrics.py:60-74 | whenever there is a hit, F1 is the harmonic mean of precision and recall |
| `Confusion.FieldCounts` | src/claim_triage/evaluation/metrics.py:95-115 | hits are the fields rightly read, false positives those wrong or invented, misses those wrong, invented or left out |
| `ExtractionGuarantees.WhatIsCounted` | src/claim_triage/evaluation/metrics.py:95-115 | said of the fields and the mapping: true positives are the stated values answered by an agreeing one, false positives the values answered where another or none is stated, false negatives those and the stated values left out |
| `Confusion.FieldsAreConserved` | src/claim_triage/evaluation/metrics.py:95-115 | hits and false positives are the fields answered with a value; hits and misses every field but those rightly left out |
| `Confusion.LabelCounts` | src/claim_triage/evaluation/metrics.py:118-136 | exactly the cases' own labels, each with the answers that found it, claimed it in vain and missed it |
| `Confusion.LabelsAreConserved` | src/claim_triage/evaluation/metrics.py:126-136 | a label's hits and misses are its occurrences, its hits and false positives its mentions |
| `Confusion.FalsePositivesAreWrongAnswers` | src/claim_triage/evaluation/metrics.py:121-124 | over all labels, in any order, the false positives are the wrong answers that name a known label |
| `Scoring.ScoreFields` | src/claim_triage/evaluation/scoring.py:151-158 | the nested loop leaves every stated field with its own counts over all cases |
| `Scoring.AddUp` | src/claim_triage/evaluation/scoring.py:160-162 | the fields' counts, added up in any order, are the counts of all the questions |
| `Scoring.MeasureExtraction` | src/claim_triage/evaluation/scoring.py:137-169 | no cases, not answered, or the overall axis of all the questions and each field's own F1 |
| `ExtractionGuarantees.WhatIsMeasured` | src/claim_triage/evaluation/scoring.py:151-169 | over all fields of all cases, precision is the share read rightly of what was answered, recall of what was stated or invented, F1 of both |
| `ExtractionGuarantees.PerfectExtraction` | src/claim_triage/evaluation/scoring.py:137-169 | the overall axis is all ones exactly when some value is stated, every stated value is answered by an agreeing one and nothing is invented; a field's own F1 is one exactly when that holds of the field |
| `ExtractionGuarantees.HowManyWereAnswered` | src/claim_triage/evaluation/scoring.py:152-155 | what is reported as answered is the number of cases with an answer of their own |
| `Scoring.FieldByFieldIsCaseByCase` | src/claim_triage/evaluation/scoring.py:151-162 | totals summed field by field are totals summed case by case |
| `Scoring.MacroAverage` | src/claim_triage/evaluation/metrics.py:139-143 | the mean of the metric over the labels, whichever order they are listed in |
| `Retrieval.ReciprocalRank` | src/claim_triage/evaluation/metrics.py:151-161 | one over the place of the first expected clause, zero without one |
| `Retrieval.HitsAreRanks` | src/claim_triage/evaluation/metrics.py:146-161 | a case is hit at a depth exactly when its reciprocal rank is at least one over that depth |
| `RetrievalGuarantees.WhatARankSays` | src/claim_triage/evaluation/metrics.py:151-161 | the rank is 1 / (n + 1) where the n-th clause is the first expected one, and zero exactly when none was retrieved |
| `RetrievalGuarantees.WhatAHitSays` | src/claim_triage/evaluation/metrics.py:146-148 | a case is hit exactly when one of the first `depth` clauses is expected |
| `Retrieval.CitationCounts` | src/claim_triage/evaluation/metrics.py:164-179 | how many citations resolve to a retrieved clause of an agreeing page, and how many there are |
| `RetrievalGuarantees.WhatResolves` | src/claim_triage/evaluation/metrics.py:171-178 | a citation resolves exactly when the last clause retrieved under its identity agrees on the page, where both carry one |
| `Retrieval.MeasureRetrieval` | src/claim_triage/evaluation/scoring.py:172-210 | the three metrics over all cases, citation validity only where something was cited |
| `RetrievalGuarantees.WhatTheRanksSay` | src/claim_triage/evaluation/scoring.py:188-207 | the hit rate is one when every case is hit and zero when none is; the mean rank is one exactly when every case ranks an expected clause first, and zero exactly when none retrieves one |
| `RetrievalGuarantees.WhatTheCitationsSay` | src/claim_triage/evaluation/scoring.py:200-209 | citation validity is read exactly when something was cited, and is one exactly when every citation resolves in its own case |
| `RetrievalGuarantees.HowManyWereAnswered` | src/claim_triage/evaluation/scoring.py:193-195 | what is reported as answered is the number of cases with an answer of their own |
| `Retrieval.MetricsAreProportions` | src/claim_triage/evaluation/scoring.py:189-210 | all three are proportions |
| `Retrieval.MeanRankFollowsHitRate` | src/claim_triage/evaluation/scoring.py:204-207 | the mean rank is at least the hit rate over the depth |
| `Classification.MeasureAxis` | src/claim_triage/evaluation/scoring.py:245-253 | an axis is its labels' precision, recall and F1, each averaged over the labels |
| `ClassificationGuarantees.WhatAnAxisAverages` | src/claim_triage/evaluation/scoring.py:245-253 | over the labels in any order, precision averages the share found of the answers naming a label, recall of the label's cases, F1 of both together |
| `Classification.MeasureClassification` | src/claim_triage/evaluation/scoring.py:213-258 | both axes over all cases, routing over all cases, and the curve over the answered ones |
| `Classification.PerfectAxis` | src/claim_triage/evaluation/scoring.py:245-253 | an axis is made of proportions, and its F1, or its recall, is 1 exactly when every answer is right |
| `Classification.PerfectCurve` | src/claim_triage/evaluation/scoring.py:241-257 | the curve reads 1 exactly when both kinds were scored and every fraud scored above every other case |
| `Classification.PerfectRun` | src/claim_triage/evaluation/scoring.py:213-258 | all metrics read 1 exactly when every case was answered right on every name and the fraud score tells the frauds apart |
| `ClassificationGuarantees.WhatEachMetricReads` | src/claim_triage/evaluation/scoring.py:229-258 | each axis is perfect exactly when its own answers are right, routing exactly when the queues are, the curve exactly when the scores tell the frauds apart |
| `ClassificationGuarantees.WhenThereIsACurve` | src/claim_triage/evaluation/scoring.py:241-257 | there is a curve exactly when an answered fraud and an answered case that is none were scored |
| `ClassificationGuarantees.HowManyWereAnswered` | src/claim_triage/evaluation/scoring.py:234-236 | what is reported as answered is the number of cases with an answer of their own |
| `Classification.MetricsAreProportions` | src/claim_triage/evaluation/scoring.py:244-257 | every metric of the capability is a proportion |
| `Measuring.FieldMetricsApart` | src/claim_triage/evaluation/scoring.py:118-120 | a field's metric name gives the field back |
| `MeasuringNames.ExtractionReads` | src/claim_triage/evaluation/scoring.py:163-168 | the overall precision, recall and F1 stand under their three names, each field's F1 under its own, and nothing else is named |
| `MeasuringNames.RetrievalReads` | src/claim_triage/evaluation/scoring.py:204-209 | the hit rate, the mean rank and, where read, the citation validity stand under their names |
| `MeasuringNames.ClassificationReads` | src/claim_triage/evaluation/scoring.py:244-257 | both axes' three averages, the routing accuracy and, where read, the curve stand under their eight names |
| `MeasuringNames.WhatAMeasurementSays` | src/claim_triage/evaluation/scoring.py:261-297 | a measurement carries its own set's version and number of cases, its reading, and answers and metrics only where scored |
| `Measuring.Measure` | src/claim_triage/evaluation/scoring.py:128-134 | the three capabilities in order, each as scored, named under its own prefix and made of proportions: what the gate takes for a run |
| `SortedNames.Sorted` | src/claim_triage/evaluation/gate.py:168-171 | the same names, each once, in ascending order |
| `SortedNames.WhatComesFirst` | src/claim_triage/evaluation/gate.py:168-171 | one name comes no later than another exactly when it begins it, or has the smaller character where they first differ |
| `Gate.FailuresOf` | src/claim_triage/evaluation/gate.py:272-293 | exactly the rules one metric breaks, each once, the floor before the fall; none exactly when its verdict is ok or adopted |
| `Gate.OtherQuestion` | src/claim_triage/evaluation/gate.py:210-241 | a question exactly when the baseline is not comparable, settings before versions, naming every set apart |
| `Gate.JudgeOne` | src/claim_triage/evaluation/gate.py:160-206 | a capability's rows, one per name, measured names first and recorded ones sorted behind them; and its failures in that order, lost cases first |
| `Gate.Judge` | src/claim_triage/evaluation/gate.py:142-207 | nothing compared under another question; otherwise exactly the rows and failures of each capability, no row twice, capability by capability and name by name |
| `GateVerdicts.RowsReadRight` | src/claim_triage/evaluation/gate.py:172-205 | every row of a comparable run, cell by cell: cases, answers, value, recorded value, their difference, and the one verdict those numbers call for; an empty row says whether the set had no cases |
| `GateVerdicts.FailuresSayRight` | src/claim_triage/evaluation/gate.py:157-206 | the failures are exactly what happened: a smaller set, a recorded metric not measured, a value under its floor, a fall beyond the tolerance, each with its numbers |
| `GateVerdicts.VersionsListed` | src/claim_triage/evaluation/gate.py:227-240 | a refusal to compare lists exactly the sets scored at another version, with both versions |
| `GateVerdicts.IncomparableRowsSaySo` | src/claim_triage/evaluation/gate.py:150-156 | under another question each capability's row says only that, with its cases and answers |
| `GateVerdicts.RowsComeInOrder` | src/claim_triage/evaluation/gate.py:168-205 | rows come capability by capability; within one, metrics measured before those only recorded, and these in ascending order |
| `GateVerdicts.WhatPassingTakes` | src/claim_triage/evaluation/gate.py:142-293 | passing, said of sets, names and values: comparable, no smaller set, all that is recorded measured, nothing under its floor and nothing fallen, to nine places, beyond the tolerance |
| `GateVerdicts.TheToleranceIsAllowed` | src/claim_triage/evaluation/gate.py:262-269 | a fall of exactly the tolerance passes, one of over half a billionth more does not, and between nine-place numbers nothing beyond the tolerance does |
| `GateGuarantees.PassedMeansPasses` | src/claim_triage/evaluation/gate.py:136-139 | no failure exactly when comparable, no case lost, every recorded metric measured, none under its floor and none fallen too far |
| `GateGuarantees.PassesExactlyWhen` | src/claim_triage/evaluation/gate.py:142-293 | a run passes exactly when comparable, no set lost cases, and every verdict is ok, adopted, no cases or not implemented |
| `GateGuarantees.OneRowForEach` | src/claim_triage/evaluation/gate.py:168-206 | every name measured, or recorded for a capability that was judged, has exactly one row, and no other name has one |
| `Baselines.EveryMetricHasOneRow` | src/claim_triage/evaluation/gate.py:142-207 | in a comparable run of all capabilities every metric measured or recorded has exactly one row |
| `GateGuarantees.RaisingNeverFails` | src/claim_triage/evaluation/gate.py:249-293 | raising any measured values never turns a pass into a failure |
| `Baselines.RecordedOf` | src/claim_triage/evaluation/baselines.py:88-147 | what a baseline gives back for a capability is what that capability measured, to six places |
| `Baselines.RecordedIsReadable` | src/claim_triage/evaluation/baselines.py:88-105 | what is recorded can be read back: known prefixes, and proportions |
| `Baselines.RecordingIsNotARegression` | src/claim_triage/evaluation/gate.py:262-269 | six-place recording and nine-place comparison never make any value fall, exactly when the tolerance is at least 0.0000005 |
| `Baselines.OwnBaselinePasses` | src/claim_triage/evaluation/gate.py:142-293 | against its own record a run passes exactly when it meets the floors |
| `Baselines.OnlyFloorsFire` | src/claim_triage/evaluation/gate.py:272-293 | judged against its own record only the floor rule can fire |
| `Harness.Evaluation.Run` | src/claim_triage/evaluation/runner.py:167-237 | the files and the exit after a run: unrunnable, failed or passed, and overwritten only by a passing run asked to record |
| `HarnessExits.WhatTheExitSays` | src/claim_triage/evaluation/runner.py:167-190 | passed exactly when a baseline is found and passed against, failed exactly when one is found and not, unrunnable exactly when none is; found is the one at the given path or the tag's own, of the run's tag, or of another where the path was given and nothing is recorded |
| `HarnessExits.RecordingDoesNotDecide` | src/claim_triage/evaluation/runner.py:183-190 | asking for a recording changes the exit exactly where the path holds nothing, or another tag's baseline at a path that was given |
| `HarnessExits.WhatIsWritten` | src/claim_triage/evaluation/runner.py:183-190 | a passing run that records writes its tag, depth, sets and six-place metrics at its path; nothing else is ever written |
| `HarnessGuarantees.RecordingKeeps` | src/claim_triage/evaluation/runner.py:183-210 | one recording keeps tag, names and cases, freezes versions and depth, and lowers no metric by more than the slack |
| `HarnessGuarantees.Ratchet` | src/claim_triage/evaluation/runner.py:167-237 | so does any sequence of runs, the slack counted once per recording |
| `HarnessGuarantees.MetricsFallByTheSlack` | src/claim_triage/evaluation/gate.py:262-269 | after n recordings a metric is at least its first value less n times (tolerance + 0.0000005 + 0.0000000005) |
| `HarnessGuarantees.MetricsFallByTheTolerance` | src/claim_triage/evaluation/gate.py:262-269 | and less n times the tolerance alone when that is whole millionths, as the declared one is |
| `HarnessGuarantees.RecordedAboveFloors` | src/claim_triage/evaluation/runner.py:193-210 | no floored metric is ever recorded below its floor rounded to six places, first recordings included |
| `HarnessGuarantees.RecordedRunPassesAgain` | src/claim_triage/evaluation/runner.py:183-190 | a recorded run passes again and records the same |
| `HarnessGuarantees.FirstRunIsJudgedOnTheFloors` | src/claim_triage/evaluation/runner.py:213-230 | where nothing was recorded only a recording run can be made, and it is judged on the floors alone |
| `Wrapping.SplitJoined` | src/claim_triage/codegen.py:879-883 | splitting a line gives back the words it was joined from |
| `TextWords.WordsAreTheText` | src/claim_triage/codegen.py:878-879 | the words of any text, put end to end, are the text with its blanks left out |
| `TextWords.TheWordsAre` | src/claim_triage/codegen.py:878-879 | they are exactly the stretches that begin at a character behind a blank or at the start and reach to the next blank or the end, in order |
| `Wrapping.StaysAhead` | src/claim_triage/codegen.py:882-890 | no other layout gets ahead of the greedy one, from any point of the loop |
| `Wrapping.Wrapped` | src/claim_triage/codegen.py:878-890 | the same words, tightly joined, no line over the width but a single long word, every character that is not blank kept in order, and no layout of the text with fewer lines, for every text and width |

## Left out

- HTTP surfaces, clients, error shapes, telemetry, configuration and readiness: only the effect of a call is kept, namely executed, refused, or its reply lost.
- Postgres itself, SQL text, schema application and seeding: committed tables, tentative writes and the locking rules stated above.
- SHA-256 and canonical JSON: a symbolic fingerprint, and a digest parameter without collisions.
- Reads of the stores that change nothing (`read_policy`, `read`, `read_parties`, `run`, `entries`).
- Binary floating point: `real` throughout, so `math.ceil` and the rounding to six and nine places are exact on their argument.
- Claim amounts are whole cents and dates and instants are integers: nothing in the protocol looks inside them.
- LangGraph: the graph is a function from a run to a status, and a node that fails is a run that fails.
- `compare`, `_number` and `_text`: how two values agree is a parameter of field scoring, not assumed to be an equivalence.
- `is_metric` and the pattern a field's name has to match: a baseline's names are only held to a capability's prefix.
- `src/claim_triage/guards/ingress.py`, the model adapters, the smoke run, report formatting, and the rest of `src/claim_triage/codegen.py`: decoding, I/O or string templates.
- The order in which a mapping of measured metrics gives its names: a mapping has none here, so the rows of measured names come in some order.
- RaisedPositives.RaisingIsSafeExactlyWhen: for a new score that another positive holds only the safe half is proved (`RaisedPositives.RaisingUntiedNeverHurts`), because joining others there raises their precision, which can outweigh a tie on the way (`RaisedPositives.JoiningCanOutweighATie`), so there the condition is not necessary.
- The second clock reading of a new caller's first take: its bucket is full at the first reading and so at the second, and only the second is kept.
- AveragePrecision.Sorted: is written out as an insertion sort, where the source calls the built-in one.
- Harness.Evaluation.Run: does not model files that cannot be read, deletion of a baseline file by hand, or a write that fails half-way.
- Wrapping.Wrapped: takes the class of blank characters as a parameter, of which only the space is known.
