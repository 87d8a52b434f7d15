/** Decisions taken after a crash or before a retry, and why they are sound in
    every reachable state of the protocol. */
module Recovery {
  import opened Common
  import opened Authority
  import opened Execution
  import opened Protocol
  import opened Guarantees

  // ------------------------------------------------------- after a restart ---

  /** The checkpointed workflow state (`NotAMapping` when it is unreadable). */
  datatype Checkpoint = NotAMapping | Checkpoint(
    outcomeUncertain: bool, executions: seq<Result>, pending: Option<string>,
    proposals: seq<Proposal>, executionMissing: bool)

  datatype RecoveryDecision = ResumePlanning | ReauthorizeAction | RestoreRecordedResult | BlockUnknownOutcome | BlockCorruptState

  datatype Patch = NoPatch | RestorePatch(executions: seq<Result>) | ReauthorizePatch

  datatype Reconciliation = Reconciliation(decision: RecoveryDecision, patch: Patch, shouldBlock: bool)

  function RecordedResult(l: Ledger, k: ActionKey): Option<Result> {
    if k in l.results then Some(l.results[k]) else None
  }

  function Restore(r: Result): Reconciliation {
    Reconciliation(RestoreRecordedResult, RestorePatch([r]), false)
  }

  function ReconcileResume(c: Checkpoint, l: Ledger): Reconciliation {
    if c.NotAMapping? then Reconciliation(BlockCorruptState, NoPatch, true)
    else if c.outcomeUncertain then Reconciliation(BlockUnknownOutcome, NoPatch, true)
    else if c.pending.Some? then
      if c.proposals != [] && RecordedResult(l, c.proposals[0].Fingerprint()).Some?
      then Restore(RecordedResult(l, c.proposals[0].Fingerprint()).value)
      else Reconciliation(ReauthorizeAction, ReauthorizePatch, false)
    else if c.executions != [] || c.executionMissing then Reconciliation(ResumePlanning, NoPatch, false)
    else if c.proposals != [] then
      var k := c.proposals[0].Fingerprint();
      if RecordedResult(l, k).Some? then Restore(RecordedResult(l, k).value)
      else if k in l.intents && l.intents[k].status == Started then Reconciliation(BlockUnknownOutcome, NoPatch, true)
      else Reconciliation(ResumePlanning, NoPatch, false)
    else Reconciliation(ResumePlanning, NoPatch, false)
  }

  /** An intent is started and no result is stored. */
  predicate Hanging(l: Ledger, k: ActionKey) { k !in l.results && k in l.intents && l.intents[k].status == Started }

  /** EVERY CHECKPOINT, with its answer.  Blocking happens for an unreadable one, an
      uncertain outcome, and a first proposal left hanging with nothing pending or
      executed; a stored result of the first proposal is restored unless something was
      executed and nothing is pending; only a pending artifact is re-authorized. */
  lemma ReconcileExactly(c: Checkpoint, l: Ledger)
    ensures var r := ReconcileResume(c, l);
      var asks := c.Checkpoint? && !c.outcomeUncertain && c.proposals != []
                  && (c.pending.Some? || (c.executions == [] && !c.executionMissing));
      && (r.decision == BlockCorruptState <==> c.NotAMapping?)
      && (r.decision == BlockUnknownOutcome <==>
            c.Checkpoint? && (c.outcomeUncertain || (asks && c.pending.None? && Hanging(l, c.proposals[0].Fingerprint()))))
      && (r.decision == RestoreRecordedResult <==> asks && c.proposals[0].Fingerprint() in l.results)
      && (r.decision == ReauthorizeAction <==>
            c.Checkpoint? && !c.outcomeUncertain && c.pending.Some? && !(asks && c.proposals[0].Fingerprint() in l.results))
      && (r.decision == ResumePlanning <==>
            c.Checkpoint? && !c.outcomeUncertain && c.pending.None? &&
            (asks ==> c.proposals[0].Fingerprint() !in l.results && !Hanging(l, c.proposals[0].Fingerprint())))
      && (r.shouldBlock <==> r.decision == BlockCorruptState || r.decision == BlockUnknownOutcome)
      && (r.patch.RestorePatch? <==> r.decision == RestoreRecordedResult)
      && (r.patch.RestorePatch? ==> r.patch.executions == [l.results[c.proposals[0].Fingerprint()]])
      && (r.patch.ReauthorizePatch? <==> r.decision == ReauthorizeAction)
  {
  }

  /** SOUND RECOVERY of one checkpointed proposal with nothing pending and nothing
      recorded in the checkpoint, in every reachable state: a stored result is
      restored, a started intent without one blocks, and anything else resumes;
      resuming happens only when the tool has provably never run for it, and a
      restored result is the one its single run produced. */
  lemma RecoveryIsSound(policy: Policy, es: seq<Event>, p: Proposal)
    ensures var s := Run(policy, INIT, es);
      var k := p.Fingerprint();
      var r := ReconcileResume(Checkpoint(false, [], None, [p], false), s.ledger);
      && (r.decision == RestoreRecordedResult <==> k in s.ledger.results)
      && (r.decision == BlockUnknownOutcome <==> k !in s.ledger.results && k in s.ledger.intents && s.ledger.intents[k].status == Started)
      && (r.decision == ResumePlanning <==> k !in s.ledger.intents || s.ledger.intents[k].status == Recorded)
      && (r.decision == ResumePlanning ==> s.runs[k] == 0)
      && (r.decision == RestoreRecordedResult ==> s.runs[k] == 1 && r.patch == RestorePatch([s.ledger.results[k]]))
      && (s.runs[k] == 1 ==> r.decision == RestoreRecordedResult || r.shouldBlock)
  {
    InvRun(policy, INIT, es);
    var s := Run(policy, INIT, es);
    assert KeyInv(s.ledger, s.runs, p.Fingerprint());
  }

  /** Acting on a resume is safe too: from the state it was decided in, the whole
      future of the system still invokes the tool at most once for the proposal. */
  lemma ResumeThenAtMostOnce(policy: Policy, es: seq<Event>, later: seq<Event>, p: Proposal)
    requires ReconcileResume(Checkpoint(false, [], None, [p], false), Run(policy, INIT, es).ledger).decision == ResumePlanning
    ensures Run(policy, INIT, es).runs[p.Fingerprint()] == 0
    ensures Run(policy, Run(policy, INIT, es), later).runs[p.Fingerprint()] <= 1
  {
    RecoveryIsSound(policy, es, p);
    InvRun(policy, INIT, es);
    var s := Run(policy, INIT, es);
    InvRun(policy, s, later);
    assert KeyInv(Run(policy, s, later).ledger, Run(policy, s, later).runs, p.Fingerprint());
  }

  /** With an artifact still pending the intent is not consulted: re-authorization
      is decided exactly when no result is stored.  Only an absent or merely recorded
      intent then still shows that the tool never ran; a started one leaves it open. */
  lemma ReauthorizeExactly(policy: Policy, es: seq<Event>, p: Proposal, ref: string)
    ensures var s := Run(policy, INIT, es);
      var k := p.Fingerprint();
      var r := ReconcileResume(Checkpoint(false, [], Some(ref), [p], false), s.ledger);
      && (r.decision == ReauthorizeAction <==> k !in s.ledger.results)
      && (r.decision == ReauthorizeAction && (k !in s.ledger.intents || s.ledger.intents[k].status == Recorded) ==> s.runs[k] == 0)
      && (r.decision != ReauthorizeAction ==> r == Restore(s.ledger.results[k]) && s.runs[k] == 1)
  {
    InvRun(policy, INIT, es);
    var s := Run(policy, INIT, es);
    assert KeyInv(s.ledger, s.runs, p.Fingerprint());
  }

  const W := Worker(0, 0)
  const LOST := World(false, true, Finished(Succeeded, map[], ""), Lost)

  const OPEN := Policy(["full"], [], (s: string) => s)
  const WRITE := Capability("fs.write", "")

  function Setup(p: Proposal): seq<Event> {
    [OwnerGrants, Authorizes(W, p, WRITE, Draw("a", "r", ALL_READ), false), Takes(W, "a")]
  }

  /** After the setup worker `W` is about to execute an artifact under the grant. */
  lemma AfterSetup(p: Proposal) returns (a: AuthorizedAction)
    ensures var s := Run(OPEN, INIT, Setup(p));
      && a.Bound() && a.Key() == p.Fingerprint() && IsFresh(s.file, a)
      && s.ledger == NO_LEDGER && s.runs == multiset{} && W in s.stages && s.stages[W] == Check(a)
  {
    var es := Setup(p);
    var s1 := Apply(OPEN, INIT, es[0]);
    assert s1.file == Saved(EMPTY.(grant := Some(FULL), epoch := 2));
    a := Mint("a", p, s1.file.state, ByPolicy);
    assert Authorize(OPEN, s1.file, p, WRITE, Draw("a", "r", ALL_READ)) == AuthOutcome(s1.file, Authorized(a));
    var s2 := Apply(OPEN, s1, es[1]);
    assert Issued(s2, 0) == map["a" := a];
    var s3 := Apply(OPEN, s2, es[2]);
    assert s3.stages[W] == Check(a);
    assert es[1..] == [es[1], es[2]] && [es[1], es[2]][1..] == [es[2]] && [es[2]][1..] == [];
    assert Run(OPEN, s2, [es[2]]) == Run(OPEN, s3, []) == s3;
    assert Run(OPEN, s1, [es[1], es[2]]) == s3;
  }

  /** Alone, a first execution whose ledger write is lost runs and records nothing. */
  lemma LostWrite(file: StateFile, a: AuthorizedAction)
    requires a.Bound() && IsFresh(file, a)
    ensures var r := Solo(file, NO_LEDGER, Check(a), LOST); r.runs == 1 && a.Key() !in r.ledger.results
  {
    SoloMeaning(file, NO_LEDGER, a, LOST);
    var l := ClaimIntent(NO_LEDGER, a.Key(), Intent(Recorded, a.Key(), a.grant.epoch));
    assert Solo(file, NO_LEDGER, Lookup(a), LOST) == Solo(file, NO_LEDGER, Claim(a), LOST);
    assert Solo(file, NO_LEDGER, Claim(a), LOST) == Solo(file, l, Start(a), LOST);
    SoloFromStart(file, l, a, LOST);
  }

  /** A run after which the tool has run once and a checkpoint that still names the
      pending artifact is answered with re-authorization: that decision does not
      show that nothing ran. */
  lemma ReauthorizeAfterARun(p: Proposal)
    ensures var s := Run(OPEN, INIT, Setup(p) + WorkSteps(W, LOST, 8));
      && s.runs[p.Fingerprint()] == 1
      && ReconcileResume(Checkpoint(false, [], Some("a"), [p], false), s.ledger).decision == ReauthorizeAction
  {
    var a := AfterSetup(p);
    var s := Run(OPEN, INIT, Setup(p));
    RunConcat(OPEN, INIT, Setup(p), WorkSteps(W, LOST, 8));
    UninterruptedRunIsSolo(OPEN, s, W, LOST, 8);
    LostWrite(s.file, a);
  }

  // --------------------------------------------------------- before a retry ---

  datatype OutcomeClass = Denial | NoExecution | SideEffectConfirmed | ExecutionFailedRecorded | OutcomeUnknownClass | Transient

  const DENIALS := {"INVALID_PROPOSAL", "AUTHORIZATION_DENIED", "REVOKED", "CONFIG_INVALID", "BUDGET_EXHAUSTED"}

  /** `step` is the current plan step, if any; without a ledger view an unrecorded
      execution can never be confirmed. */
  function ClassifyLastOutcome(executions: seq<Result>, step: Option<string>, missing: bool, failure: string, ledger: Option<Ledger>): OutcomeClass {
    var own := if step.Some? then OfStep(executions, step.value) else executions;
    if own != [] then
      var last := own[|own| - 1];
      if UNRECORDED.0 in last.evidence && last.evidence[UNRECORDED.0] == UNRECORDED.1
         && (ledger.None? || RecordedResult(ledger.value, last.fingerprint).None?) then OutcomeUnknownClass
      else if last.status == Succeeded then SideEffectConfirmed
      else ExecutionFailedRecorded
    else if missing then NoExecution
    else if failure in DENIALS then Denial
    else Transient
  }

  function OfStep(executions: seq<Result>, step: string): seq<Result> {
    if executions == [] then []
    else (if executions[0].fingerprint.step == step then [executions[0]] else []) + OfStep(executions[1..], step)
  }

  lemma {:induction false} LastOfStep(executions: seq<Result>, r: Result)
    ensures var own := OfStep(executions + [r], r.fingerprint.step); own != [] && own[|own| - 1] == r
  {
    if executions == [] {
      assert executions + [r] == [r];
    } else {
      assert (executions + [r])[1..] == executions[1..] + [r];
      LastOfStep(executions[1..], r);
    }
  }

  /** THE CLASSES ARE SOUND: let any worker of any reachable state have a result in
      hand, and let the workflow append it to the step's history.  Then the outcome
      is called unknown exactly when the ledger holds no record of it, and a
      confirmed or failed verdict repeats the status that is durably recorded. */
  lemma ClassificationIsSound(policy: Policy, es: seq<Event>, w: Worker, history: seq<Result>, missing: bool, failure: string)
    requires var stage := StageOf(Run(policy, INIT, es), w);
      stage.Done? && (stage.reply.Fresh? || stage.reply.Unrecorded? || stage.reply.Duplicate?)
    ensures var s := Run(policy, INIT, es);
      var r := StageOf(s, w).reply.result;
      var k := StageOf(s, w).action.Key();
      var c := ClassifyLastOutcome(history + [r], Some(k.step), missing, failure, Some(s.ledger));
      && (c == OutcomeUnknownClass <==> k !in s.ledger.results)
      && (c == SideEffectConfirmed <==> k in s.ledger.results && s.ledger.results[k].status == Succeeded)
      && (c == ExecutionFailedRecorded <==> k in s.ledger.results && s.ledger.results[k].status != Succeeded)
  {
    var s := Run(policy, INIT, es);
    assert LedgerInv(s) by { InvRun(policy, INIT, es); }
    HeldResult(s, w);
    ClassOf(history, StageOf(s, w).reply.result, s.ledger, missing, failure);
  }

  /** The execution counts for the step; without a current step all do. */
  predicate Counts(r: Result, step: Option<string>) { step.None? || r.fingerprint.step == step.value }

  /** Execution `i` is the last one that counts. */
  predicate LastCounting(executions: seq<Result>, step: Option<string>, i: nat) {
    i < |executions| && Counts(executions[i], step) && forall j :: i < j < |executions| ==> !Counts(executions[j], step)
  }

  predicate NoneCounts(executions: seq<Result>, step: Option<string>) {
    forall i :: 0 <= i < |executions| ==> !Counts(executions[i], step)
  }

  lemma {:induction false} OfStepNone(executions: seq<Result>, step: string)
    requires NoneCounts(executions, Some(step))
    ensures OfStep(executions, step) == []
  {
    if executions != [] {
      assert !Counts(executions[0], Some(step));
      forall i | 0 <= i < |executions[1..]| ensures !Counts(executions[1..][i], Some(step)) { assert executions[1..][i] == executions[i + 1]; }
      OfStepNone(executions[1..], step);
    }
  }

  lemma {:induction false} OfStepLast(executions: seq<Result>, step: string, i: nat)
    requires LastCounting(executions, Some(step), i)
    ensures var own := OfStep(executions, step); own != [] && own[|own| - 1] == executions[i]
  {
    var rest := executions[1..];
    forall j | 0 <= j < |rest| ensures rest[j] == executions[j + 1] {}
    if i > 0 {
      OfStepLast(rest, step, i - 1);
    } else {
      OfStepNone(rest, step);
    }
  }

  /** THE CLASS BEFORE A RETRY: the last execution that counts decides alone, unknown
      exactly when it is flagged as unrecorded and no ledger confirms it. */
  lemma LastExecutionDecides(executions: seq<Result>, step: Option<string>, i: nat, missing: bool, failure: string, ledger: Option<Ledger>)
    requires LastCounting(executions, step, i)
    ensures var last := executions[i];
      ClassifyLastOutcome(executions, step, missing, failure, ledger) ==
        if "durable_ledger" in last.evidence && last.evidence["durable_ledger"] == "unrecorded"
           && (ledger.None? || last.fingerprint !in ledger.value.results) then OutcomeUnknownClass
        else if last.status == Succeeded then SideEffectConfirmed
        else ExecutionFailedRecorded
  {
    if step.Some? {
      OfStepLast(executions, step.value, i);
    } else {
      assert i == |executions| - 1 by { assert i < |executions| - 1 ==> Counts(executions[|executions| - 1], step); }
    }
  }

  /** Without one a refusal by the executor means that nothing ran, and then the last
      failure is a denial exactly when it is one of the five policy facts. */
  lemma NoExecutionDecides(executions: seq<Result>, step: Option<string>, missing: bool, failure: string, ledger: Option<Ledger>)
    requires NoneCounts(executions, step)
    ensures ClassifyLastOutcome(executions, step, missing, failure, ledger) ==
      if missing then NoExecution
      else if failure == "INVALID_PROPOSAL" || failure == "AUTHORIZATION_DENIED" || failure == "REVOKED"
              || failure == "CONFIG_INVALID" || failure == "BUDGET_EXHAUSTED" then Denial
      else Transient
  {
    if step.Some? {
      OfStepNone(executions, step.value);
    } else if executions != [] {
      assert Counts(executions[0], step);
    }
  }

  /** The class of a result, by what the ledger holds of it. */
  lemma ClassOf(history: seq<Result>, r: Result, l: Ledger, missing: bool, failure: string)
    requires r.fingerprint in l.results ==> r.status == l.results[r.fingerprint].status
    requires r.fingerprint !in l.results ==> UNRECORDED.0 in r.evidence && r.evidence[UNRECORDED.0] == UNRECORDED.1
    ensures ClassifyLastOutcome(history + [r], Some(r.fingerprint.step), missing, failure, Some(l)) ==
      if r.fingerprint !in l.results then OutcomeUnknownClass
      else if l.results[r.fingerprint].status == Succeeded then SideEffectConfirmed
      else ExecutionFailedRecorded
  {
    LastOfStep(history, r);
  }

  /** What a result in a worker's hand says about the ledger. */
  lemma HeldResult(s: State, w: Worker)
    requires LedgerInv(s)
    requires var stage := StageOf(s, w); stage.Done? && (stage.reply.Fresh? || stage.reply.Unrecorded? || stage.reply.Duplicate?)
    ensures var r, k := StageOf(s, w).reply.result, StageOf(s, w).action.Key();
      && r.fingerprint == k
      && (k in s.ledger.results ==> r.status == s.ledger.results[k].status)
      && (k !in s.ledger.results ==> UNRECORDED.0 in r.evidence && r.evidence[UNRECORDED.0] == UNRECORDED.1)
  {
    assert StageInv(s.ledger, s.runs, s.stages[w]);
  }
}
