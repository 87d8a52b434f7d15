/** Bounded recovery: validate, authorize, execute, verify, and retry the whole
    chain while verification fails and attempts remain. */
module RealityLoop {
  import opened Common
  import opened Authority
  import opened Execution

  datatype Candidate = Candidate(tool: string, operation: string, args: string)

  datatype Verdict = Passed | NotPassed | VerifierRaised

  /** What one attempt meets: the validator's answer (`None` when it rejects), the
      ids drawn, the world of the execution, and the verifier's verdict. */
  datatype Turn = Turn(
    capability: Option<Capability>, proposalId: string, draw: Draw,
    world: World, verdict: Verdict)

  datatype FailureCategory = ValidationFailure | AuthorizationFailure | ExecutionFailure | VerificationFailure

  datatype RecoveryPlan = RecoveryPlan(retryCount: nat, maxRetries: nat)

  datatype RealityOutcome = RealityOutcome(
    attempt: int, result: Option<Result>, verdict: Option<Verdict>,
    failure: Option<FailureCategory>, recovered: bool, plan: Option<RecoveryPlan>)
  {
    predicate Succeeded() { verdict == Some(Passed) }
  }

  function ToProposal(c: Candidate, task: string, step: string, model: string, attempt: int, t: Turn): Proposal {
    Proposal(t.proposalId, task, step, attempt, model, c.tool, c.operation, c.args, "")
  }

  /** What a whole call leaves behind: the state file, the ledger, how often the tool
      ran, and the outcome. */
  datatype Driven = Driven(file: StateFile, ledger: Ledger, runs: nat, out: RealityOutcome)

  datatype Mission = Mission(candidate: Candidate, task: string, step: string, model: string) {
    function Key(): ActionKey { ActionKey(task, step, candidate.tool, candidate.operation, candidate.args) }
  }

  predicate HasResult(r: Reply) { r.Fresh? || r.Unrecorded? || r.Duplicate? }

  predicate Answered(s: Stage) { s.Done? && HasResult(s.reply) }

  /** One attempt up to its verification: what it leaves, how often it ran the tool,
      and a result or the category of its failure. */
  datatype Attempted = Attempted(file: StateFile, ledger: Ledger, runs: nat, result: Option<Result>, failure: FailureCategory)

  function Attempt(policy: Policy, m: Mission, turn: Turn, file: StateFile, l: Ledger, attempt: int): Attempted {
    if turn.capability.None? then Attempted(file, l, 0, None, ValidationFailure)
    else
      var auth := Authorize(policy, file, ToProposal(m.candidate, m.task, m.step, m.model, attempt, turn), turn.capability.value, turn.draw);
      if !auth.reply.Authorized? then Attempted(auth.file, l, 0, None, AuthorizationFailure)
      else
        var solo := Solo(auth.file, l, Check(auth.reply.action), turn.world);
        if !Answered(solo.stage) then Attempted(auth.file, solo.ledger, solo.runs, None, ExecutionFailure)
        else Attempted(auth.file, solo.ledger, solo.runs, Some(solo.stage.reply.result), VerificationFailure)
  }

  type Tries = (StateFile, Ledger, int) -> Attempted

  function Attempts(policy: Policy, m: Mission, turns: int -> Turn): Tries {
    (file: StateFile, l: Ledger, attempt: int) => Attempt(policy, m, turns(attempt), file, l, attempt)
  }

  function Verdicts(turns: int -> Turn): int -> Verdict { (attempt: int) => turns(attempt).verdict }

  /** The call from attempt number `attempt` on, after `recoveries` recoveries. */
  function Drive(tries: Tries, verdicts: int -> Verdict, file: StateFile, l: Ledger, attempt: int, recoveries: nat, max: nat): Driven
    requires recoveries <= max
    decreases max - recoveries
  {
    var a := tries(file, l, attempt);
    var recovered := recoveries > 0;
    if a.result.None? then
      Driven(a.file, a.ledger, a.runs, RealityOutcome(attempt, None, None, Some(a.failure), recovered, None))
    else if verdicts(attempt).Passed? then
      Driven(a.file, a.ledger, a.runs, RealityOutcome(attempt, a.result, Some(Passed), None, recovered, None))
    else if verdicts(attempt).VerifierRaised? then
      Driven(a.file, a.ledger, a.runs, RealityOutcome(attempt, a.result, None, Some(VerificationFailure), recovered, None))
    else if recoveries < max then
      var rest := Drive(tries, verdicts, a.file, a.ledger, attempt + 1, recoveries + 1, max);
      rest.(runs := a.runs + rest.runs)
    else
      Driven(a.file, a.ledger, a.runs,
             RealityOutcome(attempt, a.result, Some(NotPassed), Some(VerificationFailure), recovered, Some(RecoveryPlan(recoveries, max))))
  }

  predicate Touched(l: Ledger, k: ActionKey) { k in l.results || k in l.intents }

  /** An attempt runs the tool at most once and only on an untouched fingerprint,
      which it leaves started; with a result the fingerprint is touched; and on a
      touched one it changes nothing and can only have the recorded result. */
  predicate CarefulAt(k: ActionKey, l: Ledger, a: Attempted) {
    && a.runs <= 1
    && (a.runs == 1 ==> !Touched(l, k) && k in a.ledger.intents && a.ledger.intents[k].status != Recorded)
    && (a.result.Some? ==> Touched(a.ledger, k))
    && (Touched(l, k) ==> a.ledger == l && (a.result.Some? ==> k in l.results && a.result.value == MarkDuplicate(l.results[k])))
  }

  ghost predicate Careful(tries: Tries, k: ActionKey) {
    forall file, l, attempt :: CarefulAt(k, l, tries(file, l, attempt))
  }

  /** The real attempts are careful, because the fingerprint ignores everything an
      attempt draws afresh. */
  lemma AttemptsAreCareful(policy: Policy, m: Mission, turns: int -> Turn)
    ensures Careful(Attempts(policy, m, turns), m.Key())
  {
    forall file, l, attempt ensures CarefulAt(m.Key(), l, Attempts(policy, m, turns)(file, l, attempt)) {
      OneAttempt(policy, m, turns(attempt), file, l, attempt);
    }
  }

  lemma OneAttempt(policy: Policy, m: Mission, turn: Turn, file: StateFile, l: Ledger, attempt: int)
    ensures CarefulAt(m.Key(), l, Attempt(policy, m, turn, file, l, attempt))
  {
    if turn.capability.Some? {
      var p := ToProposal(m.candidate, m.task, m.step, m.model, attempt, turn);
      var auth := Authorize(policy, file, p, turn.capability.value, turn.draw);
      BoundWhenMinted(policy, file, p, turn.capability.value, turn.draw);
      if auth.reply.Authorized? {
        SoloMeaning(auth.file, l, auth.reply.action, turn.world);
        ReplyMeaning(auth.file, l, auth.reply.action, turn.world);
      }
    }
  }

  /** Once the fingerprint is touched, whatever is left of the call only looks: no
      run, no change of the ledger, and any result is the recorded one. */
  lemma {:induction false} RetriesOnlyReplay(tries: Tries, verdicts: int -> Verdict, file: StateFile, l: Ledger, attempt: int, recoveries: nat, max: nat, k: ActionKey)
    requires recoveries <= max && Careful(tries, k) && Touched(l, k)
    ensures var d := Drive(tries, verdicts, file, l, attempt, recoveries, max);
      && d.runs == 0 && d.ledger == l
      && (d.out.result.Some? ==> k in l.results && d.out.result.value == MarkDuplicate(l.results[k]))
    decreases max - recoveries
  {
    var a := tries(file, l, attempt);
    assert CarefulAt(k, l, a);
    if recoveries < max { RetriesOnlyReplay(tries, verdicts, a.file, a.ledger, attempt + 1, recoveries + 1, max, k); }
  }

  /** AT MOST ONE RUN PER CALL, however many recoveries it makes, and only on a
      fingerprint nobody had touched; every retry that has a result has the recorded
      one, marked as a duplicate. */
  lemma OneRunPerCall(policy: Policy, m: Mission, turns: int -> Turn, file: StateFile, l: Ledger, attempt: int, max: nat)
    ensures var d := Drive(Attempts(policy, m, turns), Verdicts(turns), file, l, attempt, 0, max);
      var k := m.Key();
      && d.runs <= 1
      && (d.runs == 1 ==> !Touched(l, k) && k in d.ledger.intents && d.ledger.intents[k].status != Recorded)
      && (Touched(l, k) ==> d.ledger == l)
      && (d.out.attempt > attempt && d.out.result.Some? ==> k in d.ledger.results && d.out.result.value == MarkDuplicate(d.ledger.results[k]))
  {
    AttemptsAreCareful(policy, m, turns);
    OneRunFrom(Attempts(policy, m, turns), Verdicts(turns), file, l, attempt, max, m.Key());
  }

  lemma OneRunFrom(tries: Tries, verdicts: int -> Verdict, file: StateFile, l: Ledger, attempt: int, max: nat, k: ActionKey)
    requires Careful(tries, k)
    ensures var d := Drive(tries, verdicts, file, l, attempt, 0, max);
      && d.runs <= 1
      && (d.runs == 1 ==> !Touched(l, k) && k in d.ledger.intents && d.ledger.intents[k].status != Recorded)
      && (Touched(l, k) ==> d.ledger == l)
      && (d.out.attempt > attempt && d.out.result.Some? ==> k in d.ledger.results && d.out.result.value == MarkDuplicate(d.ledger.results[k]))
  {
    var a := tries(file, l, attempt);
    assert CarefulAt(k, l, a);
    if a.result.Some? && max > 0 { RetriesOnlyReplay(tries, verdicts, a.file, a.ledger, attempt + 1, 1, max, k); }
  }

  // ------------------------------------------------------ how a call ends ---

  /** Attempt number `attempt + j`, after the ones before it. */
  function TryAt(tries: Tries, file: StateFile, l: Ledger, attempt: int, j: nat): Attempted
    decreases j
  {
    var a := tries(file, l, attempt);
    if j == 0 then a else TryAt(tries, a.file, a.ledger, attempt + 1, j - 1)
  }

  /** The tool's runs in attempts `attempt` to `attempt + j`. */
  function RunsThrough(tries: Tries, file: StateFile, l: Ledger, attempt: int, j: nat): nat
    decreases j
  {
    var a := tries(file, l, attempt);
    a.runs + if j == 0 then 0 else RunsThrough(tries, a.file, a.ledger, attempt + 1, j - 1)
  }

  /** How a call may end after an attempt: without a result, by the verifier's yes or
      its error, or with its no when no attempt is left. */
  predicate Ends(out: RealityOutcome, a: Attempted, verdict: Verdict, max: nat) {
    && out.result == a.result
    && out.verdict == (if a.result.None? || verdict.VerifierRaised? then None else Some(verdict))
    && out.failure == (if a.result.None? then Some(a.failure) else if verdict.Passed? then None else Some(VerificationFailure))
    && out.plan == (if a.result.Some? && verdict.NotPassed? then Some(RecoveryPlan(max, max)) else None)
  }

  /** EXACTLY HOW A CALL ENDS: every attempt but the last had a result that the
      verifier did not pass; the last either had none, or was passed, or made the
      verifier raise, or was the last one allowed; its result and its verdict are the
      outcome's, and the call leaves what it left. */
  lemma {:induction false} DriveExactly(tries: Tries, verdicts: int -> Verdict, file: StateFile, l: Ledger, attempt: int, recoveries: nat, max: nat)
    requires recoveries <= max
    ensures var d := Drive(tries, verdicts, file, l, attempt, recoveries, max);
      && attempt <= d.out.attempt <= attempt + (max - recoveries)
      && var n := d.out.attempt - attempt;
         var last := TryAt(tries, file, l, attempt, n);
      && d.file == last.file && d.ledger == last.ledger && d.runs == RunsThrough(tries, file, l, attempt, n)
      && Ends(d.out, last, verdicts(d.out.attempt), max) && d.out.recovered == (recoveries + n > 0)
      && (n < max - recoveries ==> last.result.None? || !verdicts(d.out.attempt).NotPassed?)
      && forall j :: 0 <= j < n ==> TryAt(tries, file, l, attempt, j).result.Some? && verdicts(attempt + j).NotPassed?
    decreases max - recoveries
  {
    var a := tries(file, l, attempt);
    if a.result.Some? && verdicts(attempt).NotPassed? && recoveries < max {
      DriveExactly(tries, verdicts, a.file, a.ledger, attempt + 1, recoveries + 1, max);
      var n := Drive(tries, verdicts, file, l, attempt, recoveries, max).out.attempt - attempt;
      forall j | 0 <= j < n ensures TryAt(tries, file, l, attempt, j).result.Some? && verdicts(attempt + j).NotPassed? {
        if j > 0 { assert TryAt(tries, a.file, a.ledger, attempt + 1, j - 1).result.Some? && verdicts((attempt + 1) + (j - 1)).NotPassed?; }
      }
    }
  }

  /** RETRIES ARE BOUNDED, success is the verifier's alone, and a plan is recorded
      exactly when the last allowed attempt was verified and did not pass. */
  lemma RetriesAreBounded(tries: Tries, verdicts: int -> Verdict, file: StateFile, l: Ledger, attempt: int, recoveries: nat, max: nat)
    requires recoveries <= max
    ensures var out := Drive(tries, verdicts, file, l, attempt, recoveries, max).out;
      && attempt <= out.attempt <= attempt + (max - recoveries)
      && (out.recovered <==> recoveries + (out.attempt - attempt) > 0)
      && (out.Succeeded() <==> out.result.Some? && verdicts(out.attempt).Passed?)
      && (out.failure.None? <==> out.Succeeded())
      && (out.plan.Some? <==> out.attempt == attempt + (max - recoveries) && out.result.Some? && verdicts(out.attempt).NotPassed?)
      && (out.plan.Some? ==> out.plan.value == RecoveryPlan(max, max))
  {
    DriveExactly(tries, verdicts, file, l, attempt, recoveries, max);
  }

  /** EXACTLY HOW AN ATTEMPT ENDS: what it proposes is the mission's action under its
      own number, and it fails for the first of validation, authorization and
      execution that fails it, leaving what came before. */
  lemma AttemptExactly(policy: Policy, m: Mission, turn: Turn, file: StateFile, l: Ledger, attempt: int)
    ensures var r := Attempt(policy, m, turn, file, l, attempt);
      var p := Proposal(turn.proposalId, m.task, m.step, attempt, m.model, m.candidate.tool, m.candidate.operation, m.candidate.args, "");
      if turn.capability.None? then r == Attempted(file, l, 0, None, ValidationFailure)
      else
        var auth := Authorize(policy, file, p, turn.capability.value, turn.draw);
        if !auth.reply.Authorized? then r == Attempted(auth.file, l, 0, None, AuthorizationFailure)
        else
          var call := Solo(auth.file, l, Check(auth.reply.action), turn.world);
          && call.stage.Done? && r.file == auth.file && r.ledger == call.ledger && r.runs == call.runs
          && match call.stage.reply
             case Fresh(result) => r.result == Some(result)
             case Unrecorded(result) => r.result == Some(result)
             case Duplicate(result) => r.result == Some(result)
             case _ => r.result == None && r.failure == ExecutionFailure
  {
    if turn.capability.Some? {
      var p := ToProposal(m.candidate, m.task, m.step, m.model, attempt, turn);
      BoundWhenMinted(policy, file, p, turn.capability.value, turn.draw);
      var auth := Authorize(policy, file, p, turn.capability.value, turn.draw);
      if auth.reply.Authorized? { SoloMeaning(auth.file, l, auth.reply.action, turn.world); }
    }
  }

  /** The key of a mission is what its candidate does, where. */
  lemma KeyNames(m: Mission)
    ensures m.Key() == ActionKey(m.task, m.step, m.candidate.tool, m.candidate.operation, m.candidate.args)
  {
  }

  class RealityLoop {
    const authorizer: AuthorizationService
    const executor: Executor
    const maxRecoveryAttempts: nat

    constructor (authorizer: AuthorizationService, executor: Executor, maxRecoveryAttempts: nat)
      ensures this.authorizer == authorizer && this.executor == executor && this.maxRecoveryAttempts == maxRecoveryAttempts
    {
      this.authorizer, this.executor, this.maxRecoveryAttempts := authorizer, executor, maxRecoveryAttempts;
    }

    /** One `execute_candidate` call, over live services that share one store. */
    method ExecuteCandidate(m: Mission, attempt: int, turns: int -> Turn) returns (out: RealityOutcome)
      requires executor.store == authorizer.store
      modifies authorizer.store, executor, executor.ledger
      ensures var d := Drive(Attempts(authorizer.policy, m, turns), Verdicts(turns), old(authorizer.store.file), old(executor.ledger.View()), attempt, 0, maxRecoveryAttempts);
        && out == d.out && authorizer.store.file == d.file && executor.ledger.View() == d.ledger
        && executor.runs == old(executor.runs)[m.Key() := old(executor.runs)[m.Key()] + d.runs]
    {
      out := ExecuteWithRecovery(m, attempt, turns, 0);
    }

    method ExecuteWithRecovery(m: Mission, attempt: int, turns: int -> Turn, recoveries: nat) returns (out: RealityOutcome)
      requires recoveries <= maxRecoveryAttempts && executor.store == authorizer.store
      modifies authorizer.store, executor, executor.ledger
      decreases maxRecoveryAttempts - recoveries
      ensures var d := Drive(Attempts(authorizer.policy, m, turns), Verdicts(turns), old(authorizer.store.file), old(executor.ledger.View()), attempt, recoveries, maxRecoveryAttempts);
        && out == d.out && authorizer.store.file == d.file && executor.ledger.View() == d.ledger
        && executor.runs == old(executor.runs)[m.Key() := old(executor.runs)[m.Key()] + d.runs]
    {
      var turn := turns(attempt);
      var recovered := recoveries > 0;
      if turn.capability.None? {
        return RealityOutcome(attempt, None, None, Some(ValidationFailure), recovered, None);
      }
      var p := ToProposal(m.candidate, m.task, m.step, m.model, attempt, turn);
      ghost var file := authorizer.store.file;
      BoundWhenMinted(authorizer.policy, file, p, turn.capability.value, turn.draw);
      var auth := authorizer.AuthorizeProposal(p, turn.capability.value, turn.draw);
      if !auth.Authorized? {
        return RealityOutcome(attempt, None, None, Some(AuthorizationFailure), recovered, None);
      }
      var reply := executor.Execute(auth.action, turn.world);
      if !HasResult(reply) {
        return RealityOutcome(attempt, None, None, Some(ExecutionFailure), recovered, None);
      }
      if turn.verdict.Passed? {
        return RealityOutcome(attempt, Some(reply.result), Some(Passed), None, recovered, None);
      }
      if turn.verdict.VerifierRaised? {
        return RealityOutcome(attempt, Some(reply.result), None, Some(VerificationFailure), recovered, None);
      }
      if recoveries < maxRecoveryAttempts {
        out := ExecuteWithRecovery(m, attempt + 1, turns, recoveries + 1);
        return;
      }
      out := RealityOutcome(attempt, Some(reply.result), Some(NotPassed), Some(VerificationFailure), recovered,
                            Some(RecoveryPlan(recoveries, maxRecoveryAttempts)));
    }
  }

  lemma BoundWhenMinted(policy: Policy, file: StateFile, p: Proposal, cap: Capability, draw: Draw)
    ensures var out := Authorize(policy, file, p, cap, draw);
      out.reply.Authorized? ==> out.reply.action.Bound() && out.reply.action.Key() == p.Fingerprint()
  {
    MintFacts(policy, file, p, cap, draw);
  }

  /** A call that answers with a result leaves the fingerprint claimed or recorded,
      so no later call of its own can run it again. */
  lemma ReplyMeaning(file: StateFile, l: Ledger, a: AuthorizedAction, env: World)
    requires a.Bound()
    ensures var r := Solo(file, l, Check(a), env);
      var k := a.Key();
      && r.stage.Done?
      && (r.stage.reply.Duplicate? ==> k in l.results && r.ledger == l && r.stage.reply.result == MarkDuplicate(l.results[k]))
      && (r.stage.reply.Fresh? || r.stage.reply.Unrecorded? ==> k in r.ledger.intents && k !in l.results && k !in l.intents)
      && (k in l.results ==> r.ledger == l)
  {
    SoloMeaning(file, l, a, env);
  }
}
