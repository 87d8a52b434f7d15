# NomadicOS: a verified model

This project models the parts of NomadicOS that decide what may happen, what has
happened, and what is remembered, and proves what they promise.

* **Owner authority, execution and recovery.** `Authority`, `Execution`, `Protocol`,
  `Guarantees`, `Recovery`, `RealityLoop` and `RealityRuns` model the authority store,
  the only mint of authorized actions, the execution ledger, the dispatch-only executor,
  the recovery decisions and the bounded recovery loop. `Protocol` is a step machine:
  any number of workers in any number of processes, each holding a program counter
  inside one `execute` call, over one durable ledger and one owner state file, with
  volatile tables of issued artifacts, owner actions (grant, revoke, instruct, answer),
  a state file that may fail to be read, for a while or for good, or be removed, single
  reads that fail inside an authorization, lost or half-lost ledger writes, aborted
  calls and crashed processes. The theorems of `Guarantees` and `RealityRuns` hold over
  every finite run. The live `Executor` method is proved equal to an uninterrupted chain
  of the machine's own atomic actions.
* **The adaptive decision cycle** (`Adaptive`): the rule machine that chooses
  CONTINUE / RETRY / REPLAN / ESCALATE / STOP, over runs in which the environment and
  the model may do anything.
* **Deliberation and planning** (`Deliberation`, `ActorMonitor`, `MissionPlan`): the
  depth-first search with value propagation for any branching and depth, the action
  selector, the two-stage monitor and its refinement loop, task ordering, the depth
  check and the scheduler.
* **Bounded memories** (`WorkingMemory`, `MemoryStore`, `LineCodec`, `Consolidation`,
  `ConsolidationReport`): eviction with pins, the JSONL store with caps and its text
  file, and consolidation by supersession with what it reports and relates.
* **Connection strings** (`Dsn`): the printer against the reader of section 34.1.1.1
  (Keyword/Value Connection Strings) of the PostgreSQL 16 documentation.

`dafny verify dfyconfig.toml` checks everything. Each module keeps the source's form:
classes with fields where the source updates objects, loops where it loops, functions
and datatypes where it only computes. Such a class method is proved equal to a
specification function, and the theorems are about that function.

Conventions: a Python exception is a reply or an `Option`; a Python dictionary whose
order matters is a sequence with distinct ids; a call into a model, a tool, a database
or a clock is a parameter of arbitrary value; floating-point scores are `real`.

## What does not hold

Where a promise fails in the code, the model keeps the code and states exactly when the
promise holds.

* The adaptive decision budget is restarted at one by a decision on a state without a
  mission id. One such turn keeps the bound, for every continuation whose turns name
  their mission, exactly when it comes before the second decision or the budget is at
  most one (`Adaptive.NamelessTurnExactly`); a whole run and its named continuations
  keep it exactly when the decisions its nameless turns give back do not outweigh those
  its other turns spent on a STOP (`Adaptive.BudgetHoldsExactly`, from the account in
  `Adaptive.MovesAreAccounted`); and for every larger budget a run from the start breaks
  it (`Adaptive.MissingMissionBreaksTheBudget`).
* A stop caused by an authorization denial records its category in lower case, so the
  next decision does not recognise it, although the comment on rule 3 says denials are
  never reclassified. A STOP ends the graph run
  (`src/nomadicos/orchestration/graph.py:2180-2181` and `:2403`), so that next decision is
  the one of a resumed mission. Resumed with nothing changed, it stops again, once or any
  number of times and whatever the model replies, exactly when something other than the
  denial stops it: the last decision is spent, the goal is verified, or no replan is due
  and a retry or replan budget is used up (`Adaptive.DenialHoldsExactly`,
  `Adaptive.DeniedForGoodExactly`); `Adaptive.DeniedThenContinues` is one mission that
  goes on.
* A revoke is final only while the owner's state file stays. A missing file reads as
  epoch one, so after its removal the owner's own revokes and grants can make an artifact
  pass the freshness check again, exactly when it names an epoch of two or more
  (`Guarantees.RevokedForGood`, `Guarantees.RemovalRevives`). Running the tool at most
  once does not depend on it.
* The owner is asked again about an action already denied exactly when the look at the
  denials fails while the other reads of that authorization do not, because an unreadable
  file counts as one without denials; nothing is ever granted that way
  (`Guarantees.AskedAgainExactly`, `Guarantees.DenialHolds`).
* Re-authorization after a restart does not show that the tool never ran, although the
  comment on case B says so (`Recovery.ReauthorizeExactly`, `Recovery.ReauthorizeAfterARun`).
* The memory store's round trip is the identity exactly when no stored text contains
  U+0085, U+2028 or U+2029 (`MemoryStore.RoundTripByText`).
* Rewriting a memory record under another kind can evict the record just written
  (`MemoryStore.RewriteSurvivesExactly`, `MemoryStore.RewriteCanEvictItself`).
* A connection string with an empty host, database or user does not read back
  (`Dsn.DsnRoundTrip`); an empty password, being last, does.
* Of several capability patterns of one namespace only the first counts
  (`Authority.PatternMatchIsFirstDecider`, `Authority.SecondPatternOfANamespaceIsDead`).

## Model

| member | source | states |
|---|---|---|
| Authority.PatternMatchIsFirstDecider | src/nomadicos/authority/policy.py:64-74 | a capability is inside the profile exactly when some pattern covers it and no earlier pattern already decides its namespace otherwise |
| Authority.SecondPatternOfANamespaceIsDead | src/nomadicos/authority/policy.py:64-74 | two operations listed for one namespace grant only the first |
| Authority.MatchesMeansContained | src/nomadicos/authority/policy.py:36-47 | a pattern matches a resource exactly when it is not empty and is contained in it once both are normalised; the converse containment adds nothing |
| Authority.HardDeniedIsRefused | src/nomadicos/authority/policy.py:84-86 | an action on a resource the configuration denies is refused and leaves the file alone, whatever is granted, allowed or read |
| Authority.AuthorizeExactly | src/nomadicos/authority/authorization.py:29-95 | the exact guard of each answer (granted by policy, granted by an override, asked, refused, error), what it leaves in the file and what it mints, for any failing reads |
| Authority.NoFileNoAuthority | src/nomadicos/authority/store.py:95-99 | a missing or unreadable file refuses everything |
| Authority.AnswerDecidesTheNext | src/nomadicos/authority/store.py:154-188 | after the owner's ALLOW exactly the next asking is granted by the owner and the one after it asks again; after a DENY it is refused |
| Authority.AnswerTouches | src/nomadicos/authority/store.py:154-176 | an answer moves one question's fingerprint and touches nothing else; an unauthorised, unclear or unmatched one changes nothing |
| Authority.OwnerChanges | src/nomadicos/authority/store.py:113-152 | what a grant, a revoke and a recorded question change, field by field |
| Authority.DotSplits | src/nomadicos/authority/policy.py:68 | a capability's namespace and operation are what stands before and after its first dot |
| Authority.MintFacts | src/nomadicos/authority/authorization.py:29-95 | every minted artifact is bound to its proposal, carries the store's epoch and its current grant, is owner-granted only out of a stored override, and otherwise only inside the profile; a question is only recorded for an action neither allowed nor denied |
| Authority.AuthorityStore.GrantFullPcAutonomy | src/nomadicos/authority/store.py:113-123 | granting twice changes nothing; a new grant opens a new epoch; an unreadable file refuses |
| Authority.AuthorityStore.RevokeAll | src/nomadicos/authority/store.py:125-134 | no grant, no overrides and no pending questions remain, denials stay, and the epoch rises |
| Authority.InstructMeaning | src/nomadicos/authority/store.py:136-141 | a new instruction comes last and takes the place of exactly the older ones with its rule; all others stay, in order; no rule is listed twice |
| Authority.RestatedOnce | src/nomadicos/authority/store.py:136-141 | stating a rule again leaves only the newer statement |
| Authority.DropMeaning | src/nomadicos/authority/store.py:143-146 | exactly the instructions with that id go and the others stay in order, so dropping a newly added one restores the list |
| Authority.AuthorityStore.RecordConflictRequest | src/nomadicos/authority/store.py:149-152 | a pending question is stored under its request id and nothing else changes |
| Authority.AuthorityStore.AnswerConflict | src/nomadicos/authority/store.py:154-176 | only the owner's ALLOW or DENY of a pending question is taken; it moves the fingerprint between overrides and denials and consumes the question |
| Authority.AuthorityStore.ConsumeOverride | src/nomadicos/authority/store.py:181-188 | an override is used at most once, and an unreadable file is an error |
| Authority.AuthorityStore.IsDenied | src/nomadicos/authority/store.py:178-179 | an unreadable file denies nothing by itself |
| Authority.AuthorizationService.AuthorizeProposal | src/nomadicos/authority/authorization.py:29-95 | the live sequence of store calls is the mint that the theorems are about |
| Execution.InMemoryLedger.TryClaim | src/nomadicos/executor/dispatch.py:75-79 | first writer wins, and a loser changes nothing |
| Execution.InMemoryLedger.PutResult | src/nomadicos/executor/dispatch.py:72-73 | stores one result and touches nothing else |
| Execution.InMemoryLedger.MarkIntent | src/nomadicos/executor/dispatch.py:84-93 | moves the status of an existing intent only |
| Execution.Executor.Execute | src/nomadicos/executor/dispatch.py:117-253 | the whole call, with its ledger effects and tool runs, is the uninterrupted chain of the protocol's atomic actions |
| Execution.SoloMeaning | src/nomadicos/executor/dispatch.py:132-253 | left alone, a call runs the tool exactly when the artifact is fresh, nothing is recorded or claimed, the claim is not refused and the action is valid; a recorded result comes back marked as a duplicate, a claimed one is refused, and no other key is touched |
| Execution.SoloFromStart | src/nomadicos/executor/dispatch.py:189-253 | after the claim: what the ledger and the reply are for each way the tool and the final write may end |
| Execution.ResultIsTheTools | src/nomadicos/executor/dispatch.py:189-253 | when the tool runs and finishes, the reply and, where the write lands, the stored result carry its own status, message and evidence, the action's id and fingerprint; the intent names the epoch of the grant and is COMPLETED exactly when the write was seen to land |
| Execution.NoResultWithoutAFinish | src/nomadicos/executor/dispatch.py:189-211 | an invalid action is never run, and neither it nor a confinement refusal stores a result or completes its intent |
| Execution.RefusalsComeFirst | src/nomadicos/executor/dispatch.py:128-177 | an artifact not bound to its proposal is refused before anything else, and a lost claim answers with what is then recorded |
| Execution.LedgerOperations | src/nomadicos/executor/dispatch.py:72-93 | what claiming, marking and storing do to the ledger |
| Execution.DuplicateKeeps | src/nomadicos/executor/dispatch.py:144-153 | a duplicate keeps the recorded status, ids and evidence, and adds its mark and message |
| Protocol.TaskRuntime.Issue | src/nomadicos/orchestration/runtime.py:77-79 | an issued artifact is filed under its own id |
| Protocol.TaskRuntime.Take | src/nomadicos/orchestration/runtime.py:81-86 | an artifact can be taken once |
| Protocol.TakenOnce | src/nomadicos/orchestration/runtime.py:77-86 | what is filed is what is taken, and a second taking finds nothing |
| Protocol.AuthorizingFiles | src/nomadicos/orchestration/runtime.py:77-79 | in the step machine an authorization files its artifact in the table of its own process and touches no other |
| Protocol.TakingTakes | src/nomadicos/orchestration/runtime.py:81-86 | in the step machine a worker takes up what a taking from its own process's table yields |
| Protocol.NothingElseMovesTables | src/nomadicos/orchestration/runtime.py:77-86 | no other event touches a table, but a crash, which empties one |
| Protocol.InvStep | src/nomadicos/executor/dispatch.py:117-253 | every event of every interleaving keeps the ledger, mint, holder and owner invariants |
| Protocol.OwnerEventsExactly | src/nomadicos/authority/store.py:113-176 | in the step machine every owner action does to the file what the store does, and nothing when it cannot be read |
| Protocol.FileEventsExactly | src/nomadicos/authority/store.py:83-99 | a file that fails to be read comes back with what it held, a lost or removed one does not |
| Protocol.WorkerEventsExactly | src/nomadicos/executor/dispatch.py:117-253 | a worker takes the next atomic action of its call on the one ledger; an abort idles it, a crash its whole process |
| Protocol.AuthorizesExactly | src/nomadicos/authority/authorization.py:29-95 | an authorization leaves in the system what the service leaves, its artifact counted and filed or taken up |
| Guarantees.AtMostOnce | src/nomadicos/executor/dispatch.py:142-189 | over every run with crashes, restarts, lost writes and any recovery, the tool runs at most once per fingerprint, and never without a durable started intent |
| Guarantees.LedgerIsTruthful | src/nomadicos/executor/dispatch.py:142-253 | a result implies a started claim and one run, COMPLETED implies a result, a stored result never changes, and every reply held anywhere agrees with it |
| Guarantees.StoredMeansReported | src/nomadicos/executor/dispatch.py:212-231 | over every run each stored result is, field by field, what the tool reported at the very event at which a call of that action finished |
| Guarantees.OneOwnerPerKey | src/nomadicos/executor/dispatch.py:157-185 | at most one worker in the whole system is inside or past the side effect of a fingerprint |
| Guarantees.RecordedIsReplayed | src/nomadicos/executor/dispatch.py:142-153 | once recorded, any later fresh call left alone returns exactly that result, marked, and runs nothing |
| Guarantees.UninterruptedRunIsSolo | src/nomadicos/executor/dispatch.py:117-253 | the step machine and the sequential executor agree on calls nothing interrupts |
| Protocol.RunConcat | src/nomadicos/executor/dispatch.py:117-253 | a run of two pieces is the second run from where the first ends |
| Guarantees.RevokedForGood | src/nomadicos/authority/store.py:125-134 | no artifact minted before a revoke passes the freshness check after it, whatever is granted later and however reads fail, while nobody removes the state file; a revoke that cannot read the file changes nothing |
| Guarantees.RemovalRevives | src/nomadicos/authority/store.py:83-86 | in every reachable state, once the file is removed some later grant makes an artifact fresh again if and only if it names an epoch of two or more |
| Guarantees.CurrentIsMinted | src/nomadicos/authority/store.py:83-86 | as long as the file was never removed, the artifacts those theorems speak of are all that were minted |
| Guarantees.FreshMeansCurrentGrant | src/nomadicos/executor/dispatch.py:132-140 | whatever passes the freshness check, of what was minted since the file was last removed, was minted under the very grant now in force |
| Guarantees.OnlyInFlightSurvives | src/nomadicos/executor/dispatch.py:132-140 | after a revoke an older artifact is worked on only by a call that had passed the check before it |
| Guarantees.OverrideConservation | src/nomadicos/authority/store.py:154-188 | owner-granted artifacts plus a stored override never exceed the owner's ALLOW answers, and overrides and denials are disjoint |
| Guarantees.DenialHolds | src/nomadicos/authority/authorization.py:55-82 | from a denial until a later ALLOW, through revokes, re-grants and failing reads, nothing owner-granted is minted for that action while the state file stays, and no new question is recorded unless an authorization of it fails to read the denials |
| Guarantees.AskedAgainExactly | src/nomadicos/authority/authorization.py:57-82 | a denied action is asked about again if and only if the look at the denials fails and the other reads do not, and it is never granted |
| Guarantees.HardDenialChangesNothing | src/nomadicos/authority/policy.py:84-86 | at any point of any run, authorizing an action on a hard-denied resource leaves the whole system as it was |
| Guarantees.InstructionHolds | src/nomadicos/authority/policy.py:76-98 | over any run, until it is restated, dropped or the file removed, an owner instruction keeps every action on a resource it covers from being allowed by policy alone |
| Guarantees.InstructionsAreDistinct | src/nomadicos/authority/store.py:136-146 | over every run no rule is ever listed twice |
| Recovery.RecoveryIsSound | src/nomadicos/orchestration/reconciliation.py:150-189 | in every reachable state: restore exactly when a result is stored, block exactly on a started intent without one, resume otherwise, and resuming proves that the tool never ran |
| Recovery.ReconcileExactly | src/nomadicos/orchestration/reconciliation.py:60-189 | for every checkpoint and ledger, the exact condition of each recovery decision, of blocking, and what is restored |
| Recovery.ResumeThenAtMostOnce | src/nomadicos/orchestration/reconciliation.py:150-189 | resuming is safe: the whole future still runs the tool at most once |
| Recovery.ReauthorizeExactly | src/nomadicos/orchestration/reconciliation.py:102-139 | with an artifact pending, re-authorization is decided exactly when no result is stored, and shows a clean slate only without a started intent |
| Recovery.ReauthorizeAfterARun | src/nomadicos/orchestration/reconciliation.py:102-139 | a concrete run after which the tool has run and re-authorization is decided |
| Recovery.LostWrite | src/nomadicos/executor/dispatch.py:229-250 | an execution whose final write is lost has run and records nothing |
| Recovery.ClassificationIsSound | src/nomadicos/orchestration/outcomes.py:68-103 | for the result of any worker of any reachable state: the outcome is unknown exactly when the ledger holds no record of it, and a confirmed or failed verdict repeats the recorded status |
| Recovery.LastExecutionDecides | src/nomadicos/orchestration/outcomes.py:79-96 | the last execution that counts for the step decides its class alone, for any history and ledger |
| Recovery.NoExecutionDecides | src/nomadicos/orchestration/outcomes.py:97-103 | without one: a refusal means that nothing ran, one of five categories is a denial, anything else is transient |
| RealityLoop.OneRunPerCall | src/nomadicos/brain/reality_loop.py:77-340 | one call left alone runs the tool at most once however many recoveries it makes, only on a fingerprint nobody had touched, and every retry that has a result has the recorded one |
| RealityRuns.OneRunInAnyRun | src/nomadicos/brain/reality_loop.py:298-340 | the same inside the protocol: with other workers, owner actions, failures and crashes between and within the attempts, the call runs the tool at most once, and not at all if it had run for that action before, by whomever |
| RealityRuns.RanExactly | src/nomadicos/executor/dispatch.py:204-206 | a call's own runs are exactly what its work steps add to the runs of its action |
| RealityRuns.RetriesReplayInAnyRun | src/nomadicos/brain/reality_loop.py:325-336 | in any interleaving, once the action is claimed or recorded a retry never runs the tool, and any result it returns is the recorded one, marked |
| RealityLoop.RetriesOnlyReplay | src/nomadicos/brain/reality_loop.py:325-336 | once the fingerprint is claimed or recorded, all remaining attempts run nothing and change nothing in the ledger |
| RealityLoop.RetriesAreBounded | src/nomadicos/brain/reality_loop.py:298-340 | at most the configured number of retries; success exactly when the verifier passed the result of the last attempt made; a recovery plan exactly when the last allowed attempt had a result that did not pass |
| RealityLoop.DriveExactly | src/nomadicos/brain/reality_loop.py:77-340 | how every call ends: each earlier attempt had a result that was not passed, and the last one's result, verdict, failure, plan, ledger and runs are the call's |
| RealityLoop.AttemptExactly | src/nomadicos/brain/reality_loop.py:89-265 | how every attempt ends: what it proposes, and the first of validation, authorization and execution that fails |
| RealityLoop.AttemptsAreCareful | src/nomadicos/contracts/action.py:84-99 | because the fingerprint ignores the attempt number and all fresh ids, every attempt of one call meets the same ledger key |
| RealityLoop.RealityLoop.ExecuteCandidate | src/nomadicos/brain/reality_loop.py:55-75 | the live call over the live store and executor is the one the theorems are about |
| RealityLoop.RealityLoop.ExecuteWithRecovery | src/nomadicos/brain/reality_loop.py:77-340 | the same from any recovery count on: validate, authorize, execute, verify, retry |
| RealityLoop.ReplyMeaning | src/nomadicos/executor/dispatch.py:142-253 | a call that answers with a result leaves its fingerprint claimed or recorded |
| Deliberation.ValueTheorem | src/nomadicos/brain/deliberation.py:576-616 | for any branching and depth the value of every node that did not fail is the maximum score of the TERMINAL nodes below it, failed nodes carry none, and the root has one exactly when some root candidate did not fail |
| Deliberation.SearchIsWellFormed | src/nomadicos/brain/schemas.py:567-588 | unique ids, child references closed under parenthood, at most b children, bounded depth, and at most 1 + b + ... + b^L nodes, whatever the models answer |
| Deliberation.ChildrenAreAccepted | src/nomadicos/brain/deliberation.py:812-845 | the children of a node are the first proposals the monitor accepted, in order, up to the branching: none rejected, none left out before one kept |
| Deliberation.VisitExactly | src/nomadicos/brain/deliberation.py:665-769 | a visit records the models' own answers, and expands exactly unless the depth is used up or both thresholds are met, in the predicted world |
| Deliberation.RootsExactly | src/nomadicos/brain/deliberation.py:555-600 | the first candidates up to the branching are visited in the real world |
| Deliberation.NodeTells | src/nomadicos/brain/deliberation.py:770-800 | every field of a node, and that a visited node is TERMINAL exactly when all its branches failed |
| Deliberation.RootTells | src/nomadicos/brain/deliberation.py:558-600 | the root stands for no candidate and has a value exactly when some first branch did not fail |
| Deliberation.SelectorAgrees | src/nomadicos/brain/deliberation.py:399-464 | an action can be selected exactly when the search completed, it is a root candidate that did not fail, and its value is the root's |
| Deliberation.Best | src/nomadicos/brain/deliberation.py:425-447 | the selected node is beaten by no selectable one in value, score, confidence and risk, and comes first among equals |
| Deliberation.BeatsExactly | src/nomadicos/brain/deliberation.py:435-443 | the order is decided by the first of value, score, confidence and risk in which two nodes differ |
| Deliberation.SelectExactly | src/nomadicos/brain/deliberation.py:399-464 | from any result: a selection is the best branch of the root that did not fail and was evaluated, and there is none exactly when the search failed, the root is missing, or no such branch is there |
| Deliberation.SearchRecords | src/nomadicos/brain/deliberation.py:573-634 | a search leaves the real world untouched and adds exactly one prediction and one evaluation per node that has one |
| Deliberation.DeliberationSearch.Search | src/nomadicos/brain/deliberation.py:540-634 | the node list and the state of the live search are those the theorems are about |
| Deliberation.DeliberationSearch.Visit | src/nomadicos/brain/deliberation.py:638-738 | one visit appends exactly its subtree, its own node last, and returns its propagated value |
| Deliberation.DeliberationSearch.Expand | src/nomadicos/brain/deliberation.py:740-810 | the rest of a visit: children, back-propagation, leaf or inner node |
| Deliberation.DeliberationSearch.VisitAll | src/nomadicos/brain/deliberation.py:752-769 | the loop over the branches of one node, in proposal order |
| WorkingMemory.EvictionKeepsTheRest | src/nomadicos/memory/working.py:203-222 | the victims are an oldest-first run of unpinned items; every pinned and every younger item stays, in order |
| WorkingMemory.EvictionIsMinimal | src/nomadicos/memory/working.py:203-222 | no shorter run of victims would have made room |
| WorkingMemory.RoomExactly | src/nomadicos/memory/working.py:203-222 | room can be made exactly when the slots plus the pinned items alone leave it |
| WorkingMemory.PushRefusedExactly | src/nomadicos/memory/working.py:238-256 | a push is refused exactly for an unusable text or when slots plus pinned items leave no room |
| WorkingMemory.SlotRefusedExactly | src/nomadicos/memory/working.py:224-236 | the same for a slot write, which counts the text it replaces as gone |
| WorkingMemory.PushExactly | src/nomadicos/memory/working.py:238-256 | an accepted push adds exactly its text, section and pin under the next number, after what eviction leaves |
| WorkingMemory.SlotExactly | src/nomadicos/memory/working.py:224-236 | an accepted slot write sets that slot alone |
| WorkingMemory.WritesExactly | src/nomadicos/memory/working.py:224-256 | every write works on the task it names with its text stripped; a refused one changes nothing |
| WorkingMemory.ClearExactly | src/nomadicos/memory/working.py:131-133 | clearing forgets the task and no other |
| WorkingMemory.PinExactly | src/nomadicos/memory/working.py:108-118 | pinning sets the pin of the first item with the id and changes nothing else |
| WorkingMemory.DropExactly | src/nomadicos/memory/working.py:120-129 | dropping removes the first item with the id, pinned or not, and changes nothing else |
| Common.SpacesExactly | src/nomadicos/memory/working.py:225 | which characters stripping takes for blanks |
| Common.StripMeaning | src/nomadicos/memory/working.py:225 | stripping takes blanks off both ends and nothing else |
| WorkingMemory.NewTaskAccepts | src/nomadicos/memory/working.py:224-256 | an unknown task refuses no usable text, so a refusal leaves no empty task behind |
| WorkingMemory.StepIsSafe | src/nomadicos/memory/working.py:108-133 | every operation keeps every task within both bounds, touches no other task, and removes a pinned item only by dropping or clearing it |
| WorkingMemory.RunIsBounded | src/nomadicos/memory/working.py:64-133 | the bounds hold after any sequence of operations |
| WorkingMemory.PinHolds | src/nomadicos/memory/working.py:108-133 | a pinned item survives any run that neither drops it nor clears its task |
| WorkingMemory.TasksAreIsolated | src/nomadicos/memory/working.py:64-133 | a run that never names a task leaves it as it was |
| WorkingMemory.WorkingMemory.EvictPlan | src/nomadicos/memory/working.py:203-222 | the live loop finds exactly the specified victims, or none when it must refuse |
| WorkingMemory.WorkingMemory.PushItem | src/nomadicos/memory/working.py:238-256 | the new state is the specified one, a refusal changes nothing, and the id returned is fresh |
| WorkingMemory.WorkingMemory.SetSlotText | src/nomadicos/memory/working.py:224-236 | the new state is the specified one and a refusal changes nothing |
| WorkingMemory.WorkingMemory.PinItem | src/nomadicos/memory/working.py:108-118 | pins the item with that id, if there is one |
| WorkingMemory.WorkingMemory.DropItem | src/nomadicos/memory/working.py:120-129 | removes the item with that id, pinned or not |
| WorkingMemory.WorkingMemory.ClearTask | src/nomadicos/memory/working.py:131-133 | forgets everything about the task |
| MemoryStore.WriteKeepsCaps | src/nomadicos/memory/store.py:177-187 | every write leaves every kind within its cap, whatever came before |
| MemoryStore.ScrubbedExactly | src/nomadicos/memory/store.py:177-226 | scrubbing goes over every text and tag of an entry and touches nothing else |
| MemoryStore.WriteNew | src/nomadicos/memory/store.py:229-237 | from within the caps a new id is kept, at the end, and at most the oldest record of its kind goes |
| MemoryStore.WithoutOldestAt | src/nomadicos/memory/store.py:229-237 | what goes is the first record of that kind and nothing else |
| MemoryStore.WriteSameKind | src/nomadicos/memory/store.py:177-187 | an old id with its old kind is replaced in place and nothing is evicted |
| MemoryStore.RewriteSurvivesExactly | src/nomadicos/memory/store.py:229-237 | an old id under any kind survives its own write exactly when fewer than the cap of that kind stand after its place |
| MemoryStore.RewriteCanEvictItself | src/nomadicos/memory/store.py:229-237 | a concrete store in which the record just written is the one evicted |
| MemoryStore.UpsertMeaning | src/nomadicos/memory/store.py:189-226 | objects, relations and trajectories: within the cap the entry is kept and at most the oldest one goes |
| MemoryStore.EvictRecords | src/nomadicos/memory/store.py:229-237 | grouping ids by kind and deleting the surplus leaves exactly the entries with fewer than the cap of their kind after them |
| MemoryStore.PersistedLoads | src/nomadicos/memory/store.py:239-300 | loading what was persisted gives back, in the same four dictionaries and order, exactly the items whose encoding is one line, and counts every non-blank line the other encodings fall into: at least one for each lost item, and none exactly when nothing is lost |
| MemoryStore.BrokenCounts | src/nomadicos/memory/store.py:276-300 | an encoding cut at a line break leaves at least one line to count |
| MemoryStore.RoundTripExactly | src/nomadicos/memory/store.py:239-300 | the round trip is the identity, with nothing dropped, exactly when every encoding is one line |
| MemoryStore.RoundTripByText | src/nomadicos/memory/store.py:239-300 | the same in terms of the stored texts: no U+0085, U+2028 or U+2029 |
| LineCodec.AssumptionsCanBeMet | src/nomadicos/memory/store.py:245-258 | what these theorems ask of the line encoding is met by a concrete escaping codec |
| MemoryStore.LoadMeaning | src/nomadicos/memory/store.py:276-300 | any file: blank lines are skipped, exactly the malformed lines are dropped and counted, the rest is inserted in order |
| MemoryStore.LinesOfConcat | src/nomadicos/memory/store.py:276 | after a text that ends its last line the rest is split independently, CR LF included |
| MemoryStore.LinesExactly | src/nomadicos/memory/store.py:276 | a line ends at its first break, which belongs to no line; CR LF is one break |
| MemoryStore.BreaksExactly | src/nomadicos/memory/store.py:276 | at which characters lines break |
| MemoryStore.JsonlMemoryStore.constructor | src/nomadicos/memory/store.py:129-137 | a store opened on a file holds what that file loads to |
| MemoryStore.JsonlMemoryStore.Load | src/nomadicos/memory/store.py:260-300 | the live loop over the lines is the specified reading |
| MemoryStore.JsonlMemoryStore.Persist | src/nomadicos/memory/store.py:239-258 | the file holds one line per entry of the four dictionaries, in order |
| MemoryStore.JsonlMemoryStore.WriteRecord | src/nomadicos/memory/store.py:177-187 | stores the scrubbed record, evicts, rewrites the file, and leaves the other dictionaries alone |
| MemoryStore.JsonlMemoryStore.UpsertObject | src/nomadicos/memory/store.py:189-197 | stores the scrubbed object within the cap and rewrites the file |
| MemoryStore.JsonlMemoryStore.UpsertRelation | src/nomadicos/memory/store.py:199-208 | stores the scrubbed relation within the cap and rewrites the file |
| MemoryStore.JsonlMemoryStore.UpsertTrajectory | src/nomadicos/memory/store.py:210-226 | stores the scrubbed trajectory within the cap and rewrites the file |
| Consolidation.SupersedeIn | src/nomadicos/memory/supersession.py:37-85 | refusals change nothing; otherwise the heir is written, the old record is marked in place, and the relation is stored unless an id is blank |
| Consolidation.SupersedeExactly | src/nomadicos/memory/supersession.py:37-85 | when a supersession is refused, and what the two records and the relation are otherwise |
| Consolidation.Consolidate | src/nomadicos/memory/consolidation.py:75-142 | walking a stale snapshot and writing its records back leaves every record where it was, with each live record that has later live near-duplicates marked by the last of them; it returns the report its comparisons make, stores one relation per superseded pair in order, and leaves a store the next pass may start from |
| ConsolidationReport.ReportMeaning | src/nomadicos/memory/consolidation.py:98-142 | a pair is reported as superseded exactly when its records are live near-duplicates of one non-working kind, the heir later in time order; a contradiction exactly when they are live, not superseding, and the heuristic says so |
| ConsolidationReport.MarksAreReported | src/nomadicos/memory/consolidation.py:118-132 | every record the pass supersedes is reported with the heir its mark names |
| ConsolidationReport.HeirIsTheLast | src/nomadicos/memory/consolidation.py:98-132 | the heir a mark names is the last record of the kind in time order that duplicates the marked one |
| Consolidation.NothingIsLost | src/nomadicos/memory/consolidation.py:87-142 | no record goes and no field but the supersession mark changes; only live records of a non-working kind are marked, and those left unmarked have no later near-duplicate |
| Consolidation.NoDuplicatesLeft | src/nomadicos/memory/consolidation.py:87-142 | after a pass the live records of a non-working kind are pairwise not near-duplicates |
| Consolidation.MarksLeadToTheLiving | src/nomadicos/memory/consolidation.py:118-132 | following the marks from any superseded record reaches a live record of its kind that is not older |
| Consolidation.SecondPassIsIdle | src/nomadicos/memory/consolidation.py:75-142 | consolidating what a pass leaves is the identity |
| ConsolidationReport.SecondReportIsEmpty | src/nomadicos/memory/consolidation.py:75-142 | a second pass supersedes no pair |
| ConsolidationReport.ConsolidateTwice | src/nomadicos/memory/consolidation.py:75-142 | on the live store a second pass leaves records, relations, objects and trajectories exactly as the first one did |
| Consolidation.CleanAfter | src/nomadicos/memory/consolidation.py:75-142 | a pass leaves what the next one assumes |
| Consolidation.WriteKeepsClean | src/nomadicos/memory/store.py:177-187 | what the pass assumes of the store is kept by every write of a valid record |
| Consolidation.NearSymmetric | src/nomadicos/memory/consolidation.py:273-288 | being near-duplicates does not depend on the order |
| Consolidation.DupExactly | src/nomadicos/memory/consolidation.py:101-109 | two records are duplicates exactly when live, of one kind, and their stripped and folded contents are equal or one, longer than ten characters, stands in the other |
| Consolidation.SortIsStable | src/nomadicos/memory/consolidation.py:96 | records of equal time keep their order |
| Adaptive.DecideIsBounded | src/nomadicos/orchestration/adaptive_decision.py:117-135 | one decision keeps retries and replans within their budgets and moves each counter by exactly what it decides, moves only while decisions are left and no goal is missing, outcome uncertain or authorization denied, never writes SUCCESS, and takes no reply where a rule applies |
| Adaptive.DecidesExactly | src/nomadicos/orchestration/adaptive_decision.py:238-426 | without a reply: the exact condition of RETRY, REPLAN, ESCALATE, CONTINUE and STOP, each with its category, task and revision |
| Adaptive.ReplyDecidesExactly | src/nomadicos/orchestration/adaptive_decision.py:432-629 | a reply counts exactly when nothing is decided and something is doubtful; each proposal is then taken or stopped by its own guard |
| Adaptive.DecisionChangesExactly | src/nomadicos/orchestration/adaptive_decision.py:635-693 | every field each decision changes, and that no other does |
| Adaptive.DecideMerges | src/nomadicos/orchestration/adaptive_decision.py:78-135 | the decision count and the status a decision is merged with |
| Adaptive.NewestDecides | src/nomadicos/orchestration/adaptive_decision.py:143-155 | the verdict on a level is that of its newest verification |
| Adaptive.DenialHoldsExactly | src/nomadicos/orchestration/adaptive_decision.py:272-280 | the stop for a denial overwrites the category with a spelling the rule does not recognise; resumed unchanged, the mission stops again for every reply, and without one, if and only if something other than the denial stops it |
| Adaptive.DeniedForGoodExactly | src/nomadicos/orchestration/adaptive_decision.py:238-426 | the same for any number of resumptions and any replies |
| Adaptive.DeniedThenContinues | src/nomadicos/orchestration/adaptive_decision.py:695-716 | a concrete denied mission that the second decision sets RUNNING |
| Adaptive.RunStaysWithinBudget | src/nomadicos/orchestration/adaptive_decision.py:559-693 | over every run, whatever model and environment do, retries and replans stay within their budgets |
| Adaptive.CountersAreExact | src/nomadicos/orchestration/adaptive_decision.py:655-671 | over every run what a counter gained is the number of decisions it counts, so no task is retried and no mission replanned more often than its budget had left |
| Adaptive.MovesAreAccounted | src/nomadicos/orchestration/adaptive_decision.py:261-270 | over every run the decisions that are not STOP plus what is left equal what was left plus what nameless turns gave back, less the stops paid for |
| Adaptive.MovesAreBounded | src/nomadicos/orchestration/adaptive_decision.py:261-270 | over every run whose nameless turns come before the second decision, decisions other than STOP never exceed what is left of the budget |
| Adaptive.NamelessTurnExactly | src/nomadicos/orchestration/adaptive_decision.py:78-115 | a nameless turn keeps the bound for every named continuation if and only if it comes before the second decision or the budget is at most one |
| Adaptive.BudgetHoldsExactly | src/nomadicos/orchestration/adaptive_decision.py:78-115 | any run and its named continuations keep the bound if and only if its refunds do not outweigh its paid stops |
| Adaptive.MissingMissionBreaksTheBudget | src/nomadicos/orchestration/adaptive_decision.py:78-115 | for every larger budget, a run from the start with one nameless turn exceeds it |
| Adaptive.AdaptiveDecisionOrchestrator.DecideNext | src/nomadicos/orchestration/adaptive_decision.py:68-135 | the live sequence of checks is the decision the theorems are about |
| Adaptive.AdaptiveDecisionOrchestrator.DecisionToUpdate | src/nomadicos/orchestration/adaptive_decision.py:635-693 | the update built field by field is the specified one |
| ActorMonitor.VerdictsMeaning | src/nomadicos/brain/monitor.py:316-343 | exactly one verdict per candidate in proposal order; acceptance takes the deterministic stage and, where configured, an accepting first verdict of the model |
| ActorMonitor.ViolationExactly | src/nomadicos/brain/monitor.py:86-155 | a candidate passes the first stage exactly when it meets each of its rules, and the reason of a rejection is the first it fails |
| ActorMonitor.ResultExactly | src/nomadicos/brain/monitor.py:231-343 | every result in full: stage, judgement and reason |
| ActorMonitor.FirstVerdictMeaning | src/nomadicos/brain/monitor.py:255-259 | the verdict that counts is the first that names the candidate |
| ActorMonitor.RaisesExactly | src/nomadicos/brain/monitor.py:316-343 | the chain asks the model exactly when it is configured and something passed, and raises exactly when a result cannot be built or the model raises |
| ActorMonitor.SoundOnesExactly | src/nomadicos/brain/monitor.py:324-330 | what passes the first stage is what the model is given, all of it |
| ActorMonitor.AcceptedIdsAreDistinct | src/nomadicos/brain/monitor.py:86-96 | two accepted candidates never share an id |
| ActorMonitor.EvaluateStructural | src/nomadicos/brain/monitor.py:76-155 | the live first stage judges every candidate by the specified rules |
| ActorMonitor.FirstVerdicts | src/nomadicos/brain/monitor.py:255-259 | the first verdict of every known candidate counts, and unknown references are dropped |
| ActorMonitor.ApplyOutput | src/nomadicos/brain/monitor.py:231-297 | missing verdicts and malformed output reject |
| ActorMonitor.EvaluateChained | src/nomadicos/brain/monitor.py:316-343 | the live chain merges both stages into the specified verdicts, and raises exactly when a result cannot be built or the model raises |
| ActorMonitor.FitsExactly | src/nomadicos/brain/monitor.py:106-150 | a reason in words is within its bound exactly when the subgoals, capability, complaint or verdict it quotes are short enough |
| ActorMonitor.BuildableExactly | src/nomadicos/brain/schemas.py:606-622 | a result can be built exactly when it names its candidate and each text it carries is not blank and at most 500 characters long |
| ActorMonitor.LoopMeaning | src/nomadicos/brain/loop.py:206-336 | for any actor and monitor a run accepts exactly at the first accepting round within the budget; a failed run carries only rejections |
| ActorMonitor.OutcomesExactly | src/nomadicos/brain/loop.py:206-336 | after fruitless rounds only, how the run ends: with the first accepting round, by raising, with the actor's reason, or with a spent budget, and with every verdict up to there |
| ActorMonitor.RoundExactly | src/nomadicos/brain/loop.py:206-262 | in each round the actor is told exactly the last round's rejections, and the monitor judges at most the configured number of its candidates |
| ActorMonitor.TurnKindsExactly | src/nomadicos/brain/loop.py:222-322 | the events of a round, and that a refinement follows exactly when nothing was accepted and a round is left |
| ActorMonitor.VerdictKindsMeaning | src/nomadicos/brain/loop.py:263-282 | one event per verdict, in order, by its judgement |
| ActorMonitor.PlanningAdds | src/nomadicos/brain/loop.py:388-410 | what the brain state keeps of a run is added to what it held |
| ActorMonitor.RoundVerdicts | src/nomadicos/brain/loop.py:206-262 | under the chained monitor every round has one verdict per kept candidate, and acceptance takes both stages |
| ActorMonitor.FruitlessMeansRejected | src/nomadicos/brain/loop.py:328-336 | rounds without an acceptance leave nothing but rejections |
| ActorMonitor.ActorMonitorLoop.Run | src/nomadicos/brain/loop.py:189-336 | the live run has the outcome its rounds decide, records every judged candidate and verdict, and mints exactly the rounds' events in one unbroken parent chain |
| ActorMonitor.ActorMonitorLoop.PlayRound | src/nomadicos/brain/loop.py:207-280 | one round keeps at most the configured candidates and mints its events in a chain |
| ActorMonitor.ActorMonitorLoop.MintVerdicts | src/nomadicos/brain/loop.py:263-280 | one accepted or rejected event per verdict, in order |
| ActorMonitor.ActorMonitorLoop.Mint | src/nomadicos/brain/loop.py:167-187 | an event is minted below the last one and appended to the history |
| ActorMonitor.ActorMonitorLoop.Fail | src/nomadicos/brain/loop.py:347-386 | a failure records everything seen and ends the chain with its own event |
| MissionPlan.EmitTopological | src/nomadicos/brain/planner/task_graph.py:134-152 | an order of all tasks is found exactly when no set of tasks waits for itself |
| MissionPlan.FirstReady | src/nomadicos/brain/planner/task_graph.py:143-146 | the first remaining task all of whose dependencies are emitted |
| MissionPlan.OrderUnsticks | src/nomadicos/brain/planner/task_graph.py:134-152 | against an order of everything no set of tasks waits for itself |
| MissionPlan.Depths | src/nomadicos/orchestration/brain_planner.py:153-160 | over any topological order the depth computed for a task is the length of the longest dependency chain that ends there |
| MissionPlan.CheckDepth | src/nomadicos/orchestration/brain_planner.py:161-163 | the check passes exactly when no chain is longer than the limit |
| MissionPlan.ValidateMissionPlan | src/nomadicos/orchestration/brain_planner.py:119-170 | a plan is valid exactly when its goal, its size, all its chains and all its descriptions are |
| MissionPlan.SelectNext | src/nomadicos/orchestration/brain_planner.py:98-116 | the live loop returns the first eligible task of the plan, or of the topological order when there is no plan |
| MissionPlan.NextEligible | src/nomadicos/orchestration/brain_planner.py:77-116 | what is selected is eligible, and nothing is selected only when nothing is |
| MissionPlan.EligibleExactly | src/nomadicos/orchestration/brain_planner.py:77-95 | a task is eligible exactly when it is READY and everything it depends on is COMPLETED |
| MissionPlan.RunKeepsOrder | src/nomadicos/orchestration/brain_planner.py:77-116 | over every run that hands out only eligible tasks, whatever then becomes of them and however often, everything handed out, running or completed has its dependencies completed, and what is completed stays so |
| MissionPlan.FreshIsOrdered | src/nomadicos/orchestration/brain_planner.py:68-74 | from a fresh status map COMPLETED is closed under dependencies after every such run, and only tasks handed out complete |
| MissionPlan.UnlockDependents | src/nomadicos/orchestration/graph.py:1707-1715 | the live loop makes READY exactly the waiting tasks with nothing left to wait for |
| MissionPlan.AdvanceTask | src/nomadicos/orchestration/graph.py:1620-1752 | the live marking, unlocking and choosing of the next task is the specified one |
| MissionPlan.AdvancedMeaning | src/nomadicos/orchestration/graph.py:1620-1752 | the current task ends COMPLETED or FAILED from whatever status it had and is kept for a retry; otherwise the next is eligible, still READY, and absent only when none is; every other status stays or is unlocked |
| MissionPlan.ScheduledExactly | src/nomadicos/orchestration/graph.py:411-512 | the scheduler keeps work at hand, forms a batch where one is possible and workers are left, and otherwise takes the next eligible task, marked ACTIVE |
| MissionPlan.BatchExactly | src/nomadicos/orchestration/graph.py:447-470 | a batch holds only read-only tasks that are eligible or current, all of them if there is room |
| MissionPlan.NodesExactly | src/nomadicos/orchestration/graph.py:655-862 | what a finished batch, a failed worker and letting go do; while a batch is pending nothing else does anything |
| MissionPlan.NodeIsARun | src/nomadicos/orchestration/graph.py:362-512 | every node that touches the statuses, batches and retries included, moves them as a run that hands out only eligible tasks, and works only on tasks handed out and not completed |
| MissionPlan.VisitIsARun | src/nomadicos/orchestration/graph.py:2270-2283 | so does the whole workflow, in whatever order its nodes come |
| MissionPlan.VisitKeepsOrder | src/nomadicos/orchestration/graph.py:362-512 | from a fresh status map COMPLETED is closed under dependencies throughout the workflow, and what it works on is not completed and has all dependencies completed |
| Dsn.RoundTripExactly | src/nomadicos/kernel/config.py:276-301 | for any list of settings, reading the printed string gives back exactly the keywords and values if and only if no value but the last is empty |
| Dsn.DsnRoundTrip | src/nomadicos/kernel/config.py:285-301 | the built string gives back its five settings exactly when host, database and user are not empty |
| Dsn.QuotedReadsBack | src/nomadicos/kernel/config.py:281-282 | the two successive replacements escape so that the reader returns the value |
| Dsn.PlainReadsBack | src/nomadicos/kernel/config.py:278-280 | an unquoted simple value reads back up to the next blank |
| Dsn.EmptySwallows | src/nomadicos/kernel/config.py:279-280 | an empty value is printed unquoted and takes the next setting for its own |
| Dsn.DecimalReadsBack | src/nomadicos/kernel/config.py:296 | the printed port reads back as the same number |
| Dsn.CharacterSets | src/nomadicos/kernel/config.py:276-280 | which characters need no quoting, and which the reader takes for blanks |
| Dsn.ReaderEdges | src/nomadicos/kernel/config.py:285-301 | blanks before the equal sign, a missing one, and a text that ends in a backslash or inside quotes |

## Left out

- The command line, desktop, inference engines, HTTP, subprocesses, the graph wiring, file locking and retry of file replacement: input and output, no decisions of their own.
- The PostgreSQL and file ledgers behind the ledger protocol: the durable ledger is one map whose single operations are atomic; a file ledger that rewrites its whole cached content from two processes at once is not modelled.
- SHA-256 and JSON canonicalisation: a fingerprint is the tuple of the five fields it hashes, and the ledger key is the fingerprint, both assumed free of collisions.
- Authorization and owner actions are one step each in `Protocol`: they are synchronous calls without a suspension point, so two processes racing inside one read-modify-write of the state file are not modelled.
- Rewriting the owner's state file by hand or from a backup: the file fails to be read, comes back, is lost or is removed, but its content is only ever written by the store.
- Log entries, timestamps, process ids and output texts of tools: no decision reads them; a tool's evidence is kept because outcome classification does.
- Length limits on reasons, rationales and list sizes of the brain state are assumed to have room, except those that `ActorMonitor` names; the search revalidates its branch state outside any handler.
- Event payloads and event types of the deliberation search: only that events are counted into the version and that the world is untouched.
- The contradiction heuristic of consolidation, which is any predicate on two records, and the count of superseded pairs, which is the length of their list.
- Semantic consolidation: it deletes from the table it is still indexing, so it has no useful law beyond its exact first pass.
- The vector index: it keeps derived data in a file it shares with others.
- Failing file writes inside the memory store: a write either happens or the process is gone.
- JSON details of the memory file: the codec is any one that round-trips, needs no stripping and never decodes a piece of a cut line; JSON objects are such encodings.
- Text scrubbing patterns: scrubbing is any function on texts, idempotent where `Consolidation.WriteKeepsClean` needs it.
- Lower-casing in near-duplicate detection and path normalisation in owner rules: any function on texts.
- Reading views of the memories (query, neighbours, snapshot, context): they filter and format.
- NUL characters in connection strings: the reader follows the documentation, which does not mention them.
- Scheduling: a workflow whose brain state cannot be loaded, and what decides whether a task succeeded, may be retried or has a worker; these are arbitrary answers.
- Mission plans: the tool-registry loop of the validator, which rejects nothing, and the other validators of a task graph (subgoals, status coherence).
- Recovery.RecoveryIsSound: one checkpointed proposal, because reconciliation reads only the first one.
- Adaptive.CountersAreExact: a retry without a task is bounded by the decision budget alone, because the code counts it nowhere else.
- Consolidation.Consolidate: for a store as writes leave it (`Consolidation.WriteKeepsClean`): within its caps, its texts scrubbed, an heir only on superseded records; a store loaded over its caps may lose records to eviction during the pass, and one loaded with unscrubbed texts has those it supersedes scrubbed.
