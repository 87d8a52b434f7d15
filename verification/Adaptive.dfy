/** The adaptive decision cycle: what to do after an outcome, and why its counters
    bound every run whatever the model and the environment do. */
module Adaptive {
  import opened Common

  // ---------------------------------------------------------------- data ---

  datatype Budget = Budget(maxDecisions: nat, maxRetries: nat, maxReplans: nat)

  datatype Decision = Continue | Retry | Replan | Escalate | Stop

  datatype Category =
    | PlanComplete | DependencyUnmet | TaskFailed | TaskTimedOut | TaskRejected | EvidenceInsufficient
    | AuthorizationDenied | OutcomeUnknown | BudgetExhausted | CriticReject | OwnerRequest
    | ModelError | ResourceUnavailable | Internal

  /** The spelling a decision category is recorded with. */
  function Code(c: Category): string {
    match c
    case PlanComplete => "plan_complete" case DependencyUnmet => "dependency_unmet"
    case TaskFailed => "task_failed" case TaskTimedOut => "task_timed_out" case TaskRejected => "task_rejected"
    case EvidenceInsufficient => "evidence_insufficient" case AuthorizationDenied => "authorization_denied"
    case OutcomeUnknown => "outcome_unknown" case BudgetExhausted => "budget_exhausted"
    case CriticReject => "critic_reject" case OwnerRequest => "owner_request" case ModelError => "model_error"
    case ResourceUnavailable => "resource_unavailable" case Internal => "internal"
  }

  // The failure categories the rules look for, as the runtime spells them.
  const AUTHORIZATION_DENIED := "AUTHORIZATION_DENIED"
  const MODEL_ERROR := "MODEL_ERROR"
  const RESOURCE_UNAVAILABLE := "RESOURCE_UNAVAILABLE"

  datatype TaskStatus = Created | Running | Recovering | WaitingOwner | Success | Partial | Blocked | Failed

  datatype Verdict = Pass | NotPass | NotVerified | BlockedVerdict

  datatype Level = GoalLevel | StepLevel | OtherLevel

  datatype Verification = Verification(level: Level, verdict: Verdict)

  datatype Execution = Succeeded | ExecutionFailed | TimedOut | Errored

  /** The mission state a decision reads and updates.  An empty `mission` is a
      missing task id; the first three counters are the trusted budgets. */
  datatype State = State(
    decisionsUsed: nat, replansUsed: nat, taskRetries: map<string, nat>,
    mission: string, task: Option<string>, hasGoal: bool, outcomeUncertain: bool,
    status: TaskStatus, failure: Option<string>, model: Option<string>,
    executions: seq<Execution>, verifications: seq<Verification>,
    pendingWork: bool, blockedWork: bool, attempt: int, planRevision: int, tried: seq<string>)

  /** A decision as recorded, model-made or not. */
  datatype Made = Made(decision: Decision, category: Category, task: Option<string>, revision: Option<int>)

  /** A reply that parsed as JSON with a known decision and category. */
  datatype Reply = Reply(decision: Decision, category: Category, task: Option<string>, revision: Option<int>, rationale: string)

  /** The update a decision returns: a field that is `None` is left as it is. */
  datatype Update = Update(
    made: Made, decisionsUsed: nat, status: Option<TaskStatus>, failure: Option<Category>,
    attempt: Option<int>, taskRetries: Option<map<string, nat>>, planRevision: Option<int>,
    replansUsed: Option<nat>, tried: Option<seq<string>>, clearsModel: bool)

  // ---------------------------------------------------- the rules, in order ---

  function RetriesOf(s: State, task: string): nat { if task in s.taskRetries then s.taskRetries[task] else 0 }

  function RetriesUsed(s: State): nat { if s.task.Some? then RetriesOf(s, s.task.value) else 0 }

  function LastVerdict(vs: seq<Verification>, level: Level): Option<Verdict> {
    if vs == [] then None
    else if vs[|vs| - 1].level == level then Some(vs[|vs| - 1].verdict)
    else LastVerdict(vs[..|vs| - 1], level)
  }

  function LastExecution(s: State): Option<Execution> {
    if s.executions == [] then None else Some(s.executions[|s.executions| - 1])
  }

  function StopFor(s: State, c: Category): Made { Made(Stop, c, s.task, None) }

  /** The deterministic safety rules, which no model is asked about. */
  function SafetyRule(b: Budget, s: State): Option<Made> {
    var goal := LastVerdict(s.verifications, GoalLevel);
    if !s.hasGoal then Some(StopFor(s, Internal))
    else if s.outcomeUncertain then Some(StopFor(s, OutcomeUnknown))
    else if s.decisionsUsed >= b.maxDecisions then Some(StopFor(s, BudgetExhausted))
    else if s.failure == Some(AUTHORIZATION_DENIED) then Some(StopFor(s, AuthorizationDenied))
    else if s.failure == Some(MODEL_ERROR) && s.model.Some? then Some(Made(Escalate, ModelError, s.task, None))
    else if s.failure == Some(RESOURCE_UNAVAILABLE) && s.model.Some? then Some(Made(Escalate, ResourceUnavailable, s.task, None))
    else if goal == Some(Pass) then Some(StopFor(s, PlanComplete))
    else if goal == Some(NotPass) && s.replansUsed < b.maxReplans then Some(Made(Replan, PlanComplete, s.task, Some(s.planRevision + 1)))
    else if LastExecution(s) == Some(ExecutionFailed) then
      Some(if RetriesUsed(s) < b.maxRetries then Made(Retry, TaskFailed, s.task, None) else StopFor(s, BudgetExhausted))
    else None
  }

  function BudgetRule(b: Budget, s: State): Option<Made> {
    if s.task.Some? && RetriesOf(s, s.task.value) >= b.maxRetries then Some(StopFor(s, BudgetExhausted))
    else if s.replansUsed >= b.maxReplans then Some(StopFor(s, BudgetExhausted))
    else None
  }

  predicate NeedsReasoning(s: State) {
    var goal, step := LastVerdict(s.verifications, GoalLevel), LastVerdict(s.verifications, StepLevel);
    || (LastExecution(s).Some? && LastExecution(s) != Some(Succeeded))
    || step == Some(NotPass) || step == Some(NotVerified)
    || goal == Some(NotPass) || goal == Some(NotVerified)
  }

  /** The closed schema: a plan revision exactly on REPLAN, and an empty task id
      means the current task. */
  function Parse(s: State, r: Reply): Option<Made> {
    if (r.decision == Replan) != r.revision.Some? then None
    else Some(Made(r.decision, r.category, if r.task.Some? && r.task.value != "" then r.task else s.task, r.revision))
  }

  /** What trusted code makes of the model's proposal. */
  function Validate(b: Budget, s: State, m: Made, rationale: string): Made {
    match m.decision
    case Stop => m
    case Continue => if s.pendingWork || s.blockedWork then m else StopFor(s, PlanComplete)
    case Retry =>
      if m.task.None? then StopFor(s, Internal)
      else if RetriesOf(s, m.task.value) >= b.maxRetries then StopFor(s, BudgetExhausted)
      else m
    case Replan => if m.revision.None? then StopFor(s, Internal) else if s.replansUsed >= b.maxReplans then StopFor(s, BudgetExhausted) else m
    case Escalate => if Blank(rationale) then StopFor(s, Internal) else m
  }

  /** The model is asked only when something is undecided; no engine, a raised
      error and a malformed text are all `None`. */
  function AskBrain(b: Budget, s: State, r: Option<Reply>): Option<Made> {
    if !NeedsReasoning(s) || r.None? || Parse(s, r.value).None? then None
    else Some(Validate(b, s, Parse(s, r.value).value, r.value.rationale))
  }

  function ContinueFor(s: State): Made {
    Made(Continue, if s.pendingWork then Internal else PlanComplete, s.task, None)
  }

  // ------------------------------------------------------------- the update ---

  /** `used` is the context's decision count, which is zero for an empty state, and
      `status` the status a CONTINUE passes on. */
  function ToUpdate(s: State, used: nat, status: TaskStatus, m: Made): Update {
    var u := Update(m, used + 1, None, None, None, None, None, None, None, false);
    match m.decision
    case Stop => u.(status := Some(Blocked), failure := Some(m.category))
    case Retry =>
      u.(attempt := Some(s.attempt + 1),
         taskRetries := Some(if m.task.Some? then s.taskRetries[m.task.value := RetriesOf(s, m.task.value) + 1] else s.taskRetries))
    case Replan =>
      u.(attempt := Some(s.attempt + 1), planRevision := m.revision, replansUsed := Some(s.replansUsed + 1))
    case Escalate =>
      u.(attempt := Some(s.attempt + 1), clearsModel := true,
         tried := Some(if s.model.Some? && s.model.value != "" then s.tried + [s.model.value] else s.tried))
    case Continue => u.(status := Some(status))
  }

  /** The decision of one call. */
  function Choose(b: Budget, s: State, r: Option<Reply>): Made {
    if s.mission == "" then Made(Stop, Internal, None, None)
    else if SafetyRule(b, s).Some? then SafetyRule(b, s).value
    else if BudgetRule(b, s).Some? then BudgetRule(b, s).value
    else if AskBrain(b, s, r).Some? then AskBrain(b, s, r).value
    else ContinueFor(s)
  }

  predicate FallsBack(b: Budget, s: State, r: Option<Reply>) {
    s.mission != "" && SafetyRule(b, s).None? && BudgetRule(b, s).None? && AskBrain(b, s, r).None?
  }

  /** One call of `decide`.  A missing mission id is answered from an empty context,
      whose decision count is zero; the fallback passes an empty state on, so the
      status it writes is RUNNING. */
  function Decide(b: Budget, s: State, r: Option<Reply>): Update {
    ToUpdate(s, if s.mission == "" then 0 else s.decisionsUsed, if FallsBack(b, s, r) then Running else s.status, Choose(b, s, r))
  }

  function Merge(s: State, u: Update): State {
    s.(decisionsUsed := u.decisionsUsed,
       replansUsed := if u.replansUsed.Some? then u.replansUsed.value else s.replansUsed,
       taskRetries := if u.taskRetries.Some? then u.taskRetries.value else s.taskRetries,
       status := if u.status.Some? then u.status.value else s.status,
       failure := if u.failure.Some? then Some(Code(u.failure.value)) else s.failure,
       attempt := if u.attempt.Some? then u.attempt.value else s.attempt,
       planRevision := if u.planRevision.Some? then u.planRevision.value else s.planRevision,
       tried := if u.tried.Some? then u.tried.value else s.tried,
       model := if u.clearsModel then None else s.model)
  }

  // ------------------------------------------------------------ one decision ---

  predicate WithinBudget(b: Budget, s: State) {
    s.replansUsed <= b.maxReplans && forall t <- s.taskRetries :: s.taskRetries[t] <= b.maxRetries
  }

  /** What every chosen decision has been checked against. */
  lemma ChosenIsChecked(b: Budget, s: State, r: Option<Reply>)
    ensures var m := Choose(b, s, r);
      && (m.decision != Stop ==>
            && s.mission != "" && s.decisionsUsed < b.maxDecisions
            && s.hasGoal && !s.outcomeUncertain && s.failure != Some(AUTHORIZATION_DENIED)
            && (LastVerdict(s.verifications, GoalLevel) == Some(Pass) ==> m.decision == Escalate))
      && (m.decision == Continue ==> FallsBack(b, s, r) || s.pendingWork || s.blockedWork)
      && (m.decision == Replan ==> s.replansUsed < b.maxReplans && m.revision.Some?)
      && (m.decision == Retry && m.task.Some? ==> RetriesOf(s, m.task.value) < b.maxRetries)
      && (m.decision == Retry && m.task.None? ==> s.task.None?)
  {
  }

  /** The decision a call makes as the counters see it: a RETRY of this task. */
  predicate Retries(m: Made, task: string) { m.decision == Retry && m.task == Some(task) }

  /** ONE STEP, for any state and any reply.  The counters stay within their budgets
      and each moves by exactly the decision it counts (the decision count restarts
      at one when the mission id is missing); only a STOP is possible once the
      decisions are used up, the goal is missing, the outcome uncertain or the
      authorization denied; SUCCESS is never written; and wherever a rule of trusted
      code applies, the reply does not matter. */
  lemma DecideIsBounded(b: Budget, s: State, r: Option<Reply>)
    requires WithinBudget(b, s)
    ensures var u := Decide(b, s, r);
      var t := Merge(s, u);
      && WithinBudget(b, t)
      && t.decisionsUsed == (if s.mission == "" then 1 else s.decisionsUsed + 1)
      && t.replansUsed == s.replansUsed + (if u.made.decision == Replan then 1 else 0)
      && (forall task :: RetriesOf(t, task) == RetriesOf(s, task) + if Retries(u.made, task) then 1 else 0)
      && (u.made.decision != Stop ==>
            && s.mission != "" && s.decisionsUsed < b.maxDecisions
            && s.hasGoal && !s.outcomeUncertain && s.failure != Some(AUTHORIZATION_DENIED))
      && (u.made.decision == Stop ==> t.status == Blocked)
      && (t.status == Success ==> s.status == Success)
      && (SafetyRule(b, s).Some? || BudgetRule(b, s).Some? || !NeedsReasoning(s) ==> u == Decide(b, s, None))
  {
    ChosenIsChecked(b, s, r);
    RulesDecideAlone(b, s, r);
    UpdateEffect(b, s, if s.mission == "" then 0 else s.decisionsUsed, if FallsBack(b, s, r) then Running else s.status, Choose(b, s, r));
  }

  lemma RulesDecideAlone(b: Budget, s: State, r: Option<Reply>)
    ensures SafetyRule(b, s).Some? || BudgetRule(b, s).Some? || !NeedsReasoning(s) ==> Decide(b, s, r) == Decide(b, s, None)
  {
  }

  /** What merging a checked decision does to the counters. */
  lemma UpdateEffect(b: Budget, s: State, used: nat, status: TaskStatus, m: Made)
    requires WithinBudget(b, s)
    requires m.decision == Replan ==> s.replansUsed < b.maxReplans
    requires m.decision == Retry && m.task.Some? ==> RetriesOf(s, m.task.value) < b.maxRetries
    ensures var t := Merge(s, ToUpdate(s, used, status, m));
      && WithinBudget(b, t) && t.decisionsUsed == used + 1
      && t.replansUsed == s.replansUsed + (if m.decision == Replan then 1 else 0)
      && (forall task :: RetriesOf(t, task) == RetriesOf(s, task) + if Retries(m, task) then 1 else 0)
      && t.status == (if m.decision == Stop then Blocked else if m.decision == Continue then status else s.status)
      && t.attempt == (if m.decision == Stop || m.decision == Continue then s.attempt else s.attempt + 1)
      && t.planRevision == (if m.decision == Replan && m.revision.Some? then m.revision.value else s.planRevision)
      && t.model == (if m.decision == Escalate then None else s.model)
  {
    if m.decision == Retry && m.task.Some? { OneMoreRetry(b, s, m.task.value); }
  }

  lemma OneMoreRetry(b: Budget, s: State, task: string)
    requires WithinBudget(b, s)
    ensures RetriesOf(s, task) < b.maxRetries ==>
      var retries := s.taskRetries[task := RetriesOf(s, task) + 1]; forall t <- retries :: retries[t] <= b.maxRetries
  {
  }

  lemma NoCodeIsADenial(c: Category)
    ensures Code(c) != AUTHORIZATION_DENIED && Code(c) != MODEL_ERROR && Code(c) != RESOURCE_UNAVAILABLE
  {
    assert Code(c)[0] != 'A' && Code(c)[0] != 'M' && Code(c)[0] != 'R';
  }

  // --------------------------------------------------- which decision it is ---

  /** Verification `i` is the newest of its level. */
  predicate Newest(vs: seq<Verification>, level: Level, i: nat) {
    i < |vs| && vs[i].level == level && forall j :: i < j < |vs| ==> vs[j].level != level
  }

  /** The verdict on a level is that of the newest verification of it. */
  lemma {:induction false} NewestDecides(vs: seq<Verification>, level: Level, i: nat)
    requires Newest(vs, level, i)
    ensures LastVerdict(vs, level) == Some(vs[i].verdict)
  {
    var n := |vs| - 1;
    if i < n {
      assert vs[n].level != level;
      NewestDecides(vs[..n], level, i);
    }
  }

  lemma {:induction false} NoneDecides(vs: seq<Verification>, level: Level)
    requires forall i :: 0 <= i < |vs| ==> vs[i].level != level
    ensures LastVerdict(vs, level).None?
  {
    if vs != [] { NoneDecides(vs[..|vs| - 1], level); }
  }

  /** Nothing yet stops the mission. */
  predicate Open(b: Budget, s: State) {
    && s.mission != "" && s.hasGoal && !s.outcomeUncertain && s.decisionsUsed < b.maxDecisions
    && s.failure != Some("AUTHORIZATION_DENIED")
  }

  /** The model in use failed. */
  predicate ModelFailed(s: State) { s.model.Some? && (s.failure == Some("MODEL_ERROR") || s.failure == Some("RESOURCE_UNAVAILABLE")) }

  predicate GoalIs(s: State, v: Verdict) { LastVerdict(s.verifications, GoalLevel) == Some(v) }

  predicate StepIs(s: State, v: Verdict) { LastVerdict(s.verifications, StepLevel) == Some(v) }

  predicate LastIs(s: State, e: Execution) { s.executions != [] && s.executions[|s.executions| - 1] == e }

  predicate RetryLeft(b: Budget, s: State) {
    var used := if s.task.Some? && s.task.value in s.taskRetries then s.taskRetries[s.task.value] else 0;
    used < b.maxRetries
  }

  /** A failed goal is replanned, a passed one ends the mission. */
  predicate GoalDecides(b: Budget, s: State) { GoalIs(s, Pass) || (GoalIs(s, NotPass) && s.replansUsed < b.maxReplans) }

  /** No rule applies, and the budgets of the task and of replanning have room. */
  predicate Undecided(b: Budget, s: State) {
    && Open(b, s) && !ModelFailed(s) && !GoalDecides(b, s) && !LastIs(s, ExecutionFailed)
    && (s.task.Some? ==> RetryLeft(b, s)) && s.replansUsed < b.maxReplans
  }

  /** WHICH DECISION, exactly, when no model replies: each with its own guard, its
      category and the task it is about. */
  lemma DecidesExactly(b: Budget, s: State)
    ensures var m := Decide(b, s, None).made;
      && (m.decision == Escalate <==> Open(b, s) && ModelFailed(s))
      && (m.decision == Replan <==> Open(b, s) && !ModelFailed(s) && GoalIs(s, NotPass) && s.replansUsed < b.maxReplans)
      && (m.decision == Retry <==>
            Open(b, s) && !ModelFailed(s) && !GoalDecides(b, s) && LastIs(s, ExecutionFailed) && RetryLeft(b, s))
      && (m.decision == Continue <==> Undecided(b, s))
      && m.task == (if s.mission == "" then None else s.task)
      && m.revision == (if m.decision == Replan then Some(s.planRevision + 1) else None)
      && m.category ==
          match m.decision
          case Escalate => if s.failure == Some("MODEL_ERROR") then ModelError else ResourceUnavailable
          case Replan => PlanComplete
          case Retry => TaskFailed
          case Continue => if s.pendingWork then Internal else PlanComplete
          case Stop =>
            if s.mission == "" || !s.hasGoal then Internal
            else if s.outcomeUncertain then OutcomeUnknown
            else if s.decisionsUsed >= b.maxDecisions then BudgetExhausted
            else if s.failure == Some("AUTHORIZATION_DENIED") then AuthorizationDenied
            else if GoalIs(s, Pass) then PlanComplete
            else BudgetExhausted
  {
  }

  /** Something went wrong that a model may be asked about. */
  predicate Doubtful(s: State) {
    || LastIs(s, ExecutionFailed) || LastIs(s, TimedOut) || LastIs(s, Errored)
    || GoalIs(s, NotPass) || GoalIs(s, NotVerified) || StepIs(s, NotPass) || StepIs(s, NotVerified)
  }

  predicate Heeded(b: Budget, s: State, r: Reply) {
    Undecided(b, s) && Doubtful(s) && (r.decision == Replan <==> r.revision.Some?)
  }

  /** WHAT A REPLY CAN DO: it counts exactly when nothing is decided, something is
      doubtful, and it names a revision just for a replan; a STOP is then taken as it
      is, and each other proposal either as it is or as a STOP, by its own guard. */
  lemma ReplyDecidesExactly(b: Budget, s: State, r: Reply)
    ensures var m := Decide(b, s, Some(r)).made;
      var task := if r.task.Some? && r.task.value != "" then r.task else s.task;
      if !Heeded(b, s, r) then m == Decide(b, s, None).made
      else if r.decision == Continue && !s.pendingWork && !s.blockedWork then m == Made(Stop, PlanComplete, s.task, None)
      else if r.decision == Retry && task.None? then m == Made(Stop, Internal, s.task, None)
      else if r.decision == Retry && (if task.value in s.taskRetries then s.taskRetries[task.value] else 0) >= b.maxRetries then
        m == Made(Stop, BudgetExhausted, s.task, None)
      else if r.decision == Escalate && Blank(r.rationale) then m == Made(Stop, Internal, s.task, None)
      else m == Made(r.decision, r.category, task, r.revision)
  {
    RepliesNeedRoom(b, s);
  }

  lemma RepliesNeedRoom(b: Budget, s: State)
    ensures Undecided(b, s) <==> s.mission != "" && SafetyRule(b, s).None? && BudgetRule(b, s).None?
    ensures Doubtful(s) <==> NeedsReasoning(s)
  {
  }

  /** WHAT A DECISION CHANGES: a retry its task's counter and the attempt, a replan
      the plan and its counter, an escalation the model, a stop the status and the
      failure, and a continuation the status alone. */
  lemma DecisionChangesExactly(s: State, used: nat, status: TaskStatus, m: Made)
    ensures var t := Merge(s, ToUpdate(s, used, status, m));
      match m.decision
      case Stop => t == s.(decisionsUsed := used + 1, status := Blocked, failure := Some(Code(m.category)))
      case Continue => t == s.(decisionsUsed := used + 1, status := status)
      case Retry =>
        t == s.(decisionsUsed := used + 1, attempt := s.attempt + 1, taskRetries := t.taskRetries)
        && t.taskRetries == if m.task.None? then s.taskRetries
                            else s.taskRetries[m.task.value := 1 + if m.task.value in s.taskRetries then s.taskRetries[m.task.value] else 0]
      case Replan =>
        t == s.(decisionsUsed := used + 1, attempt := s.attempt + 1, replansUsed := s.replansUsed + 1,
                planRevision := if m.revision.Some? then m.revision.value else s.planRevision)
      case Escalate =>
        t == s.(decisionsUsed := used + 1, attempt := s.attempt + 1, model := None,
                tried := if s.model.Some? && s.model.value != "" then s.tried + [s.model.value] else s.tried)
  {
  }

  /** What a decision is merged with: the count, which restarts when the mission has no
      id, and the status, RUNNING unless it is a reply that continues. */
  lemma DecideMerges(b: Budget, s: State, r: Option<Reply>)
    ensures var u := Decide(b, s, r);
      && u == ToUpdate(s, if s.mission == "" then 0 else s.decisionsUsed,
                       if u.made.decision == Continue && !(r.Some? && Heeded(b, s, r.value)) then Running else s.status, u.made)
  {
    RepliesNeedRoom(b, s);
    if r.Some? { ReplyDecidesExactly(b, s, r.value); }
    DecidesExactly(b, s);
  }

  // ----------------------------------------------------- a denied mission ---

  /** Where rule 3 stops a mission for a denial. */
  predicate Denied(b: Budget, s: State) {
    && s.mission != "" && s.hasGoal && !s.outcomeUncertain && s.decisionsUsed < b.maxDecisions
    && s.failure == Some(AUTHORIZATION_DENIED)
  }

  /** What else stops such a mission: its last decision, a verified goal, or a spent
      budget where no replan is due. */
  predicate StoppedAnyway(b: Budget, s: State) {
    var goal := LastVerdict(s.verifications, GoalLevel);
    || s.decisionsUsed + 1 >= b.maxDecisions
    || goal == Some(Pass)
    || (!(goal == Some(NotPass) && s.replansUsed < b.maxReplans) &&
        if LastExecution(s) == Some(ExecutionFailed) then RetriesUsed(s) >= b.maxRetries else BudgetRule(b, s).Some?)
  }

  /** A STOP ends the graph run, so the next decision is that of a resumed mission. */
  function Resumed(b: Budget, s: State, r: Option<Reply>): State { Merge(s, Decide(b, s, r)) }

  /** A DENIAL IS NOT REMEMBERED: the stop it causes records its own, differently
      spelled category, so a mission resumed with nothing changed is stopped again,
      whatever the model replies, exactly when something else stops it; and the
      same when no model replies. */
  lemma DenialHoldsExactly(b: Budget, s: State, r: Option<Reply>)
    requires Denied(b, s)
    ensures var t := Resumed(b, s, r);
      && Decide(b, s, r).made == StopFor(s, AuthorizationDenied) && t.status == Blocked
      && t.failure == Some("authorization_denied") != Some(AUTHORIZATION_DENIED)
      && ((forall q :: Choose(b, t, q).decision == Stop) <==> StoppedAnyway(b, s))
      && (Choose(b, t, None).decision == Stop <==> StoppedAnyway(b, s))
  {
    var t := Resumed(b, s, r);
    NoCodeIsADenial(AuthorizationDenied);
    assert Choose(b, t, None).decision == Stop <==> StoppedAnyway(b, s) by { assert RetriesUsed(t) == RetriesUsed(s); }
    if StoppedAnyway(b, s) {
      forall q ensures Choose(b, t, q).decision == Stop { StopNeedsNoReply(b, t, q); }
    }
  }

  /** For one, this mission runs on when it is resumed. */
  lemma DeniedThenContinues()
    ensures var b := Budget(10, 3, 3);
      var s := State(0, 0, map[], "m", None, true, false, Running, Some(AUTHORIZATION_DENIED), None, [], [], true, true, 1, 0, []);
      var t := Resumed(b, s, None);
      && Denied(b, s) && !StoppedAnyway(b, s)
      && t.status == Blocked && Choose(b, t, None).decision == Continue && Resumed(b, t, None).status == Running
  {
    NoCodeIsADenial(AuthorizationDenied);
  }

  /** A mission that stops without a reply stops by a rule, so for every reply. */
  lemma StopNeedsNoReply(b: Budget, t: State, q: Option<Reply>)
    requires Choose(b, t, None).decision == Stop
    ensures Choose(b, t, q) == Choose(b, t, None)
  {
  }

  /** Resumed over and over, with nothing changed in between. */
  function ResumedAll(b: Budget, s: State, rs: seq<Option<Reply>>): State
    decreases |rs|
  {
    if rs == [] then s else ResumedAll(b, Resumed(b, s, rs[0]), rs[1..])
  }

  ghost predicate StopsForGood(b: Budget, t: State) {
    forall rs, q :: Choose(b, ResumedAll(b, t, rs), q).decision == Stop
  }

  /** ... and what stops it the first time stops it every time: a denied mission can
      be resumed any number of times without moving on, exactly then. */
  lemma DeniedForGoodExactly(b: Budget, s: State, r: Option<Reply>)
    requires Denied(b, s)
    ensures StopsForGood(b, Resumed(b, s, r)) <==> StoppedAnyway(b, s)
  {
    var t := Resumed(b, s, r);
    DenialHoldsExactly(b, s, r);
    if StoppedAnyway(b, s) {
      forall rs, q ensures Choose(b, ResumedAll(b, t, rs), q).decision == Stop { StopsEachTime(b, t, rs, q); }
    } else {
      assert Choose(b, ResumedAll(b, t, []), None).decision != Stop;
    }
  }

  predicate NoFailureRule(f: Option<string>) {
    f != Some(AUTHORIZATION_DENIED) && f != Some(MODEL_ERROR) && f != Some(RESOURCE_UNAVAILABLE)
  }

  lemma {:induction false} StopsEachTime(b: Budget, t: State, rs: seq<Option<Reply>>, q: Option<Reply>)
    requires t.mission != "" && NoFailureRule(t.failure) && Choose(b, t, None).decision == Stop
    ensures Choose(b, ResumedAll(b, t, rs), q).decision == Stop
    decreases |rs|
  {
    StopNeedsNoReply(b, t, q);
    if rs != [] {
      StopNeedsNoReply(b, t, rs[0]);
      NoCodeIsADenial(Choose(b, t, rs[0]).category);
      StopsEachTime(b, Resumed(b, t, rs[0]), rs[1..], q);
    }
  }

  // ------------------------------------------------------------- whole runs ---

  /** One turn: between two decisions the environment may rewrite everything but
      the three counters, and then the model may answer anything. */
  datatype Turn = Turn(world: State, reply: Option<Reply>)

  function Enter(s: State, t: Turn): State {
    t.world.(decisionsUsed := s.decisionsUsed, replansUsed := s.replansUsed, taskRetries := s.taskRetries)
  }

  function Step(b: Budget, s: State, t: Turn): State { Merge(Enter(s, t), Decide(b, Enter(s, t), t.reply)) }

  function Run(b: Budget, s: State, ts: seq<Turn>): State
    decreases |ts|
  {
    if ts == [] then s else Run(b, Step(b, s, ts[0]), ts[1..])
  }

  /** How many decisions of a run are not STOP. */
  function Moves(b: Budget, s: State, ts: seq<Turn>): nat
    decreases |ts|
  {
    if ts == [] then 0
    else (if Decide(b, Enter(s, ts[0]), ts[0].reply).made.decision == Stop then 0 else 1) + Moves(b, Step(b, s, ts[0]), ts[1..])
  }

  /** RETRIES AND REPLANS stay within their budgets over every run. */
  lemma {:induction false} RunStaysWithinBudget(b: Budget, s: State, ts: seq<Turn>)
    requires WithinBudget(b, s)
    ensures WithinBudget(b, Run(b, s, ts))
    decreases |ts|
  {
    if ts != [] {
      DecideIsBounded(b, Enter(s, ts[0]), ts[0].reply);
      RunStaysWithinBudget(b, Step(b, s, ts[0]), ts[1..]);
    }
  }

  /** How many decisions of a run are retries of the task. */
  function RetriesMade(b: Budget, s: State, ts: seq<Turn>, task: string): nat
    decreases |ts|
  {
    if ts == [] then 0
    else
      var now := if Retries(Decide(b, Enter(s, ts[0]), ts[0].reply).made, task) then 1 else 0;
      now + RetriesMade(b, Step(b, s, ts[0]), ts[1..], task)
  }

  function ReplansMade(b: Budget, s: State, ts: seq<Turn>): nat
    decreases |ts|
  {
    if ts == [] then 0
    else
      var now := if Decide(b, Enter(s, ts[0]), ts[0].reply).made.decision == Replan then 1 else 0;
      now + ReplansMade(b, Step(b, s, ts[0]), ts[1..])
  }

  /** THE COUNTERS ARE EXACT over every run: what a task's counter gained is the
      number of retries decided for it, so no run retries a task or replans more
      often than its budget had left. */
  lemma {:induction false} CountersAreExact(b: Budget, s: State, ts: seq<Turn>, task: string)
    requires WithinBudget(b, s)
    ensures var t := Run(b, s, ts);
      && RetriesOf(t, task) == RetriesOf(s, task) + RetriesMade(b, s, ts, task) <= b.maxRetries
      && t.replansUsed == s.replansUsed + ReplansMade(b, s, ts) <= b.maxReplans
    decreases |ts|
  {
    if ts != [] {
      DecideIsBounded(b, Enter(s, ts[0]), ts[0].reply);
      CountersAreExact(b, Step(b, s, ts[0]), ts[1..], task);
    }
  }

  function Left(b: Budget, used: nat): nat { if used < b.maxDecisions then b.maxDecisions - used else 0 }

  /** What a turn without a mission id, which restarts the count at one, adds to the
      decisions left. */
  function Refund(b: Budget, used: nat): int { Left(b, 1) - Left(b, used) }

  /** The balance of a run: refunds of its nameless turns less the decisions its
      other turns spent on a STOP. */
  function Refunds(b: Budget, s: State, ts: seq<Turn>): int
    decreases |ts|
  {
    if ts == [] then 0
    else
      var stops := Decide(b, Enter(s, ts[0]), ts[0].reply).made.decision == Stop;
      var now := if ts[0].world.mission == "" then Refund(b, s.decisionsUsed)
                 else if stops && Left(b, s.decisionsUsed) > 0 then -1
                 else 0;
      now + Refunds(b, Step(b, s, ts[0]), ts[1..])
  }

  lemma TurnMoves(b: Budget, s: State, t: Turn)
    ensures var n := Step(b, s, t);
      && n.decisionsUsed == (if t.world.mission == "" then 1 else s.decisionsUsed + 1)
      && (Decide(b, Enter(s, t), t.reply).made.decision != Stop ==> t.world.mission != "" && s.decisionsUsed < b.maxDecisions)
  {
    ChosenIsChecked(b, Enter(s, t), t.reply);
  }

  /** THE DECISION BUDGET, to the last decision, over every run: what was left, plus
      the refunds, is what moved plus what is left. */
  lemma {:induction false} MovesAreAccounted(b: Budget, s: State, ts: seq<Turn>)
    ensures Moves(b, s, ts) + Left(b, Run(b, s, ts).decisionsUsed) == Left(b, s.decisionsUsed) + Refunds(b, s, ts)
    decreases |ts|
  {
    if ts != [] {
      TurnMoves(b, s, ts[0]);
      MovesAreAccounted(b, Step(b, s, ts[0]), ts[1..]);
    }
  }

  predicate Named(ts: seq<Turn>) { forall t <- ts :: t.world.mission != "" }

  /** Every nameless turn comes before the second decision (or nothing hangs on it). */
  predicate NamelessOnlyEarly(b: Budget, s: State, ts: seq<Turn>)
    decreases |ts|
  {
    ts != [] ==>
      && (ts[0].world.mission == "" ==> s.decisionsUsed <= 1 || b.maxDecisions <= 1)
      && NamelessOnlyEarly(b, Step(b, s, ts[0]), ts[1..])
  }

  /** So the decisions that are not STOP never exceed what is left of the budget
      when every nameless turn comes early; naming every turn is enough. */
  lemma {:induction false} MovesAreBounded(b: Budget, s: State, ts: seq<Turn>)
    requires NamelessOnlyEarly(b, s, ts) || Named(ts) || b.maxDecisions <= 1
    ensures Moves(b, s, ts) <= Left(b, s.decisionsUsed)
    decreases |ts|
  {
    if ts != [] {
      TurnMoves(b, s, ts[0]);
      MovesAreBounded(b, Step(b, s, ts[0]), ts[1..]);
    }
  }

  /** AND ONLY THEN: one nameless turn keeps the bound, for every named continuation,
      exactly when it comes before the second decision or the budget is at most one. */
  lemma NamelessTurnExactly(b: Budget, s: State, t: Turn)
    requires t.world.mission == ""
    ensures (forall later | Named(later) :: Moves(b, s, [t] + later) <= Left(b, s.decisionsUsed)) <==>
      s.decisionsUsed <= 1 || b.maxDecisions <= 1
  {
    if s.decisionsUsed <= 1 || b.maxDecisions <= 1 {
      forall later | Named(later) ensures Moves(b, s, [t] + later) <= Left(b, s.decisionsUsed) {
        assert ([t] + later)[1..] == later;
        TurnMoves(b, s, t);
        MovesAreBounded(b, Step(b, s, t), later);
      }
    } else {
      var later := NamelessTurnBreaks(b, s, t);
      assert Named(later) && Moves(b, s, [t] + later) > Left(b, s.decisionsUsed);
    }
  }

  /** From the second decision on, a nameless turn has a continuation that exceeds
      what was left. */
  lemma NamelessTurnBreaks(b: Budget, s: State, t: Turn) returns (later: seq<Turn>)
    requires t.world.mission == "" && s.decisionsUsed >= 2 && b.maxDecisions >= 2
    ensures Named(later) && Moves(b, s, [t] + later) == b.maxDecisions - 1 > Left(b, s.decisionsUsed)
  {
    var n := b.maxDecisions - 1;
    later := Escalations(n);
    TurnMoves(b, s, t);
    EscalationsMove(b, Step(b, s, t), n, []);
    assert later + [] == later && ([t] + later)[1..] == later;
  }

  lemma {:induction false} MovesConcat(b: Budget, s: State, ts: seq<Turn>, later: seq<Turn>)
    ensures Moves(b, s, ts + later) == Moves(b, s, ts) + Moves(b, Run(b, s, ts), later)
    decreases |ts|
  {
    if ts == [] {
      assert ts + later == later;
    } else {
      assert (ts + later)[1..] == ts[1..] + later;
      MovesConcat(b, Step(b, s, ts[0]), ts[1..], later);
    }
  }

  /** THE EXACT CONDITION for any run whatever: it and all its named continuations
      keep the bound exactly when its refunds do not outweigh the decisions its other
      turns spent on a STOP. */
  lemma BudgetHoldsExactly(b: Budget, s: State, ts: seq<Turn>)
    ensures (forall later | Named(later) :: Moves(b, s, ts + later) <= Left(b, s.decisionsUsed)) <==> Refunds(b, s, ts) <= 0
  {
    var t := Run(b, s, ts);
    MovesAreAccounted(b, s, ts);
    forall later | Named(later) ensures Moves(b, s, ts + later) <= Moves(b, s, ts) + Left(b, t.decisionsUsed) {
      MovesConcat(b, s, ts, later);
      MovesAreBounded(b, t, later);
    }
    MovesConcat(b, s, ts, Escalations(Left(b, t.decisionsUsed)));
    EscalationsMoveAll(b, t);
  }

  lemma EscalationsMoveAll(b: Budget, t: State)
    ensures Moves(b, t, Escalations(Left(b, t.decisionsUsed))) == Left(b, t.decisionsUsed)
  {
    var most := Escalations(Left(b, t.decisionsUsed));
    assert most + [] == most;
    if t.decisionsUsed < b.maxDecisions { EscalationsMove(b, t, Left(b, t.decisionsUsed), []); }
  }

  /** So with any larger budget some run from the start, with a single nameless turn,
      makes more moves than the budget allows. */
  lemma MissingMissionBreaksTheBudget(b: Budget) returns (ts: seq<Turn>)
    requires b.maxDecisions >= 2
    ensures FAILING.decisionsUsed == 0 && WithinBudget(b, FAILING) && Moves(b, FAILING, ts) > b.maxDecisions
  {
    var lost := Turn(FAILING.(mission := ""), None);
    EscalationsMove(b, FAILING, b.maxDecisions, []);
    var later := NamelessTurnBreaks(b, Run(b, FAILING, Escalations(b.maxDecisions)), lost);
    ts := Escalations(b.maxDecisions) + ([lost] + later);
    EscalationsMove(b, FAILING, b.maxDecisions, [lost] + later);
  }

  /** A mission whose model keeps failing. */
  const FAILING := State(0, 0, map[], "m", None, true, false, Running, Some(MODEL_ERROR), Some("a"), [], [], true, false, 1, 0, [])

  function Escalations(n: nat): (ts: seq<Turn>)
    ensures |ts| == n && Named(ts)
  {
    if n == 0 then [] else [Turn(FAILING, None)] + Escalations(n - 1)
  }

  lemma EscalationIsAMove(b: Budget, s: State)
    requires s.decisionsUsed < b.maxDecisions
    ensures Decide(b, Enter(s, Turn(FAILING, None)), None).made.decision == Escalate
    ensures Step(b, s, Turn(FAILING, None)).decisionsUsed == s.decisionsUsed + 1
  {
  }

  /** Within the budget, each of them is a move. */
  lemma {:induction false} EscalationsMove(b: Budget, s: State, n: nat, later: seq<Turn>)
    requires s.decisionsUsed + n <= b.maxDecisions
    ensures var t := Run(b, s, Escalations(n));
      t.decisionsUsed == s.decisionsUsed + n && Moves(b, s, Escalations(n) + later) == n + Moves(b, t, later)
    decreases n
  {
    var q := Escalations(n);
    if n == 0 {
      assert q + later == later;
    } else {
      assert q[1..] == Escalations(n - 1) && (q + later)[1..] == q[1..] + later && (q + later)[0] == q[0] == Turn(FAILING, None);
      EscalationIsAMove(b, s);
      EscalationsMove(b, Step(b, s, q[0]), n - 1, later);
    }
  }

  // --------------------------------------------------------- the live object ---

  class AdaptiveDecisionOrchestrator {
    const budget: Budget

    constructor (budget: Budget)
      ensures this.budget == budget
    {
      this.budget := budget;
    }

    /** Fills the update in, field by field; the state itself is never changed. */
    method DecisionToUpdate(s: State, used: nat, status: TaskStatus, m: Made) returns (updates: Update)
      ensures updates == ToUpdate(s, used, status, m)
    {
      updates := Update(m, used + 1, None, None, None, None, None, None, None, false);
      if m.decision == Stop {
        updates := updates.(status := Some(Blocked));
        updates := updates.(failure := Some(m.category));
      } else if m.decision == Retry {
        updates := updates.(attempt := Some(s.attempt + 1));
        var taskRetries := s.taskRetries;
        if m.task.Some? {
          taskRetries := taskRetries[m.task.value := RetriesOf(s, m.task.value) + 1];
        }
        updates := updates.(taskRetries := Some(taskRetries));
      } else if m.decision == Replan {
        updates := updates.(attempt := Some(s.attempt + 1));
        updates := updates.(planRevision := m.revision);
        updates := updates.(replansUsed := Some(s.replansUsed + 1));
      } else if m.decision == Escalate {
        updates := updates.(attempt := Some(s.attempt + 1));
        var tried := s.tried;
        if s.model.Some? && s.model.value != "" {
          tried := tried + [s.model.value];
        }
        updates := updates.(tried := Some(tried));
        updates := updates.(clearsModel := true);
      } else {
        updates := updates.(status := Some(status));
      }
    }

    method DecideNext(s: State, reply: Option<Reply>) returns (updates: Update)
      ensures updates == Decide(budget, s, reply)
    {
      if s.mission == "" {
        updates := DecisionToUpdate(s, 0, s.status, Made(Stop, Internal, None, None));
        return;
      }
      var safety := SafetyRule(budget, s);
      if safety.Some? {
        updates := DecisionToUpdate(s, s.decisionsUsed, s.status, safety.value);
        return;
      }
      var spent := BudgetRule(budget, s);
      if spent.Some? {
        updates := DecisionToUpdate(s, s.decisionsUsed, s.status, spent.value);
        return;
      }
      var proposal := AskBrain(budget, s, reply);
      if proposal.Some? {
        updates := DecisionToUpdate(s, s.decisionsUsed, s.status, proposal.value);
        return;
      }
      updates := DecisionToUpdate(s, s.decisionsUsed, Running, ContinueFor(s));
    }
  }
}
