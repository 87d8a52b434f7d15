/** The execution ledger and the dispatch-only executor.  `Advance` is one atomic
    action of `Executor.execute`; a whole call is a chain of them, between any two
    of which other workers, the owner or a crash may act. */
module Execution {
  import opened Common
  import opened Authority

  // ---------------------------------------------------------------- data ---

  datatype Status = Succeeded | Failed | TimedOut | Errored

  datatype Result = Result(
    actionId: string, fingerprint: ActionKey, status: Status,
    evidence: map<string, string>, message: string)

  datatype IntentStatus = Recorded | Started | Completed

  datatype Intent = Intent(status: IntentStatus, fingerprint: ActionKey, epoch: nat)

  datatype Ledger = Ledger(results: map<ActionKey, Result>, intents: map<ActionKey, Intent>)

  const NO_LEDGER := Ledger(map[], map[])

  /** How a tool invocation ends: a crash of the tool is an Errored finish. */
  datatype ToolEnd = Finished(status: Status, evidence: map<string, string>, message: string) | PathDenied

  /** How the final ledger write ends; a database may also report a failure for a
      write it did commit. */
  datatype PutEnd = Stored | Lost | StoredButRaised

  /** Everything outside the executor that one call depends on.
      `claimRefused` is a claim turned down without an intent being there. */
  datatype World = World(claimRefused: bool, valid: bool, tool: ToolEnd, put: PutEnd)

  datatype Reply =
    | Fresh(result: Result)        // ran, and recorded durably
    | Unrecorded(result: Result)   // ran, flagged as not durably recorded
    | Duplicate(result: Result)    // not run: the recorded result, marked
    | IntegrityFailure
    | RevokedOrStale
    | OutcomeUnknown
    | InvalidAction
    | PathRefused

  datatype Stage =
    | Idle
    | Check(action: AuthorizedAction)
    | Lookup(action: AuthorizedAction)
    | Claim(action: AuthorizedAction)
    | Relook(action: AuthorizedAction)
    | Start(action: AuthorizedAction)
    | Dispatch(action: AuthorizedAction)
    | Running(action: AuthorizedAction)
    | Record(action: AuthorizedAction, result: Result)
    | Complete(action: AuthorizedAction, result: Result)
    | Done(action: AuthorizedAction, reply: Reply)

  const UNRECORDED := ("durable_ledger", "unrecorded")
  const DUPLICATE_MESSAGE := "action already executed; re-execution refused"

  function MarkDuplicate(r: Result): Result {
    r.(evidence := r.evidence["duplicate_blocked" := "true"], message := DUPLICATE_MESSAGE)
  }

  function FlagUnrecorded(r: Result): Result {
    r.(evidence := r.evidence[UNRECORDED.0 := UNRECORDED.1]["ledger_error" := "write failed"])
  }

  predicate IsFresh(file: StateFile, a: AuthorizedAction) {
    var st := StateOrEmpty(file);
    a.grant.epoch == st.epoch && st.grant.Some?
  }

  // ------------------------------------------------------- ledger updates ---

  function Put(l: Ledger, k: ActionKey, r: Result): Ledger { l.(results := l.results[k := r]) }

  function ClaimIntent(l: Ledger, k: ActionKey, i: Intent): Ledger {
    if k in l.intents then l else l.(intents := l.intents[k := i])
  }

  function Mark(l: Ledger, k: ActionKey, s: IntentStatus): Ledger {
    if k in l.intents then l.(intents := l.intents[k := l.intents[k].(status := s)]) else l
  }

  // ------------------------------------------------------ one atomic action ---

  datatype Move = Move(ledger: Ledger, stage: Stage, ran: bool)

  function ToolResult(a: AuthorizedAction, end: ToolEnd): Result
    requires end.Finished?
  {
    Result(a.proposal.id, a.Key(), end.status, end.evidence, end.message)
  }

  function Advance(file: StateFile, l: Ledger, stage: Stage, env: World): Move {
    match stage
    case Idle => Move(l, stage, false)
    case Done(_, _) => Move(l, stage, false)
    case Check(a) =>
      if !a.Bound() then Move(l, Done(a, IntegrityFailure), false)
      else if !IsFresh(file, a) then Move(l, Done(a, RevokedOrStale), false)
      else Move(l, Lookup(a), false)
    case Lookup(a) =>
      if a.Key() in l.results then Move(l, Done(a, Duplicate(MarkDuplicate(l.results[a.Key()]))), false)
      else Move(l, Claim(a), false)
    case Claim(a) =>
      if a.Key() in l.intents || env.claimRefused then Move(l, Relook(a), false)
      else Move(ClaimIntent(l, a.Key(), Intent(Recorded, a.Key(), a.grant.epoch)), Start(a), false)
    case Relook(a) =>
      if a.Key() in l.results then Move(l, Done(a, Duplicate(MarkDuplicate(l.results[a.Key()]))), false)
      else Move(l, Done(a, OutcomeUnknown), false)
    case Start(a) => Move(Mark(l, a.Key(), Started), Dispatch(a), false)
    case Dispatch(a) => if env.valid then Move(l, Running(a), true) else Move(l, Done(a, InvalidAction), false)
    case Running(a) =>
      if env.tool.PathDenied? then Move(l, Done(a, PathRefused), false)
      else Move(l, Record(a, ToolResult(a, env.tool)), false)
    case Record(a, r) =>
      (match env.put
       case Stored => Move(Put(l, a.Key(), r), Complete(a, r), false)
       case Lost => Move(l, Done(a, Unrecorded(FlagUnrecorded(r))), false)
       case StoredButRaised => Move(Put(l, a.Key(), r), Done(a, Unrecorded(FlagUnrecorded(r))), false))
    case Complete(a, r) => Move(Mark(l, a.Key(), Completed), Done(a, Fresh(r)), false)
  }

  /** How many atomic actions a stage is from its end, at most. */
  function Rank(stage: Stage): nat {
    match stage
    case Idle => 0 case Done(_, _) => 0 case Complete(_, _) => 1 case Record(_, _) => 2 case Running(_) => 3
    case Dispatch(_) => 4 case Start(_) => 5 case Relook(_) => 1 case Claim(_) => 6 case Lookup(_) => 7 case Check(_) => 8
  }

  /** A call that nothing interrupts. */
  datatype SoloRun = SoloRun(ledger: Ledger, stage: Stage, runs: nat)

  function Solo(file: StateFile, l: Ledger, stage: Stage, env: World): (r: SoloRun)
    ensures r.stage.Idle? || r.stage.Done?
    decreases Rank(stage)
  {
    if Rank(stage) == 0 then SoloRun(l, stage, 0)
    else
      var m := Advance(file, l, stage, env);
      var rest := Solo(file, m.ledger, m.stage, env);
      rest.(runs := rest.runs + if m.ran then 1 else 0)
  }

  /** What one uninterrupted call does, in the four situations a caller can tell
      apart before it: authority, recorded result, claimed intent, none of them. */
  lemma SoloMeaning(file: StateFile, l: Ledger, a: AuthorizedAction, env: World)
    requires a.Bound()
    ensures var r := Solo(file, l, Check(a), env);
      var k := a.Key();
      && r.stage.Done? && r.stage.action == a
      && (r.runs == 1 <==> IsFresh(file, a) && k !in l.results && k !in l.intents && !env.claimRefused && env.valid)
      && r.runs <= 1
      && (!IsFresh(file, a) ==> r == SoloRun(l, Done(a, RevokedOrStale), 0))
      && (IsFresh(file, a) && k in l.results ==> r == SoloRun(l, Done(a, Duplicate(MarkDuplicate(l.results[k]))), 0))
      && (IsFresh(file, a) && k !in l.results && k in l.intents ==> r == SoloRun(l, Done(a, OutcomeUnknown), 0))
      && (r.runs == 1 ==> k in r.ledger.intents && r.ledger.intents[k].status != Recorded)
      && (r.stage.reply.Duplicate? ==> k in l.results)
      && (r.stage.reply.Unrecorded? ==> r.runs == 1)
      && (r.stage.reply.Fresh? ==> r.runs == 1 && k in r.ledger.results && r.ledger.results[k] == r.stage.reply.result
                                   && r.ledger.intents[k].status == Completed)
      && (forall q :: q != k ==> (q in r.ledger.results <==> q in l.results) && (q in r.ledger.intents <==> q in l.intents))
      && (forall q :: q != k && q in l.results ==> r.ledger.results[q] == l.results[q])
      && (forall q :: q != k && q in l.intents ==> r.ledger.intents[q] == l.intents[q])
      && (k in l.intents ==> r.ledger == l)
  {
    var m := Advance(file, l, Check(a), env);
    if m.stage.Done? {
      assert Solo(file, m.ledger, m.stage, env) == SoloRun(m.ledger, m.stage, 0);
    } else {
      SoloToClaim(file, l, a, env);
      if a.Key() !in l.results {
        SoloAtClaim(file, l, a, env);
        if a.Key() !in l.intents && !env.claimRefused {
          SoloFromStart(file, ClaimIntent(l, a.Key(), Intent(Recorded, a.Key(), a.grant.epoch)), a, env);
        }
      }
    }
  }

  /** The checks before the claim. */
  lemma SoloToClaim(file: StateFile, l: Ledger, a: AuthorizedAction, env: World)
    requires a.Bound() && IsFresh(file, a)
    ensures Solo(file, l, Check(a), env) ==
      if a.Key() in l.results then SoloRun(l, Done(a, Duplicate(MarkDuplicate(l.results[a.Key()]))), 0)
      else Solo(file, l, Claim(a), env)
  {
    var m := Advance(file, l, Lookup(a), env);
    assert Solo(file, l, Check(a), env) == Solo(file, l, Lookup(a), env) == Solo(file, m.ledger, m.stage, env);
    if m.stage.Done? { assert Solo(file, m.ledger, m.stage, env) == SoloRun(m.ledger, m.stage, 0); }
  }

  /** The claim: won, or lost to an intent without a result. */
  lemma SoloAtClaim(file: StateFile, l: Ledger, a: AuthorizedAction, env: World)
    requires a.Key() !in l.results
    ensures Solo(file, l, Claim(a), env) ==
      if a.Key() in l.intents || env.claimRefused then SoloRun(l, Done(a, OutcomeUnknown), 0)
      else Solo(file, ClaimIntent(l, a.Key(), Intent(Recorded, a.Key(), a.grant.epoch)), Start(a), env)
  {
    var m := Advance(file, l, Claim(a), env);
    assert Solo(file, l, Claim(a), env) == Solo(file, m.ledger, m.stage, env);
    if m.stage.Relook? {
      var n := Advance(file, l, Relook(a), env);
      assert Solo(file, n.ledger, n.stage, env) == SoloRun(n.ledger, n.stage, 0);
      assert Solo(file, l, Relook(a), env) == SoloRun(l, Done(a, OutcomeUnknown), 0);
    }
  }

  lemma SoloFromStart(file: StateFile, l: Ledger, a: AuthorizedAction, env: World)
    requires a.Key() in l.intents
    ensures var r := Solo(file, l, Start(a), env);
      var k := a.Key();
      var started := Mark(l, k, Started);
      && r.stage.Done? && r.stage.action == a
      && r.runs == (if env.valid then 1 else 0)
      && r.ledger ==
          (if !env.valid || env.tool.PathDenied? || env.put.Lost? then started
           else if env.put.StoredButRaised? then Put(started, k, ToolResult(a, env.tool))
           else Mark(Put(started, k, ToolResult(a, env.tool)), k, Completed))
      && r.stage.reply ==
          (if !env.valid then InvalidAction
           else if env.tool.PathDenied? then PathRefused
           else if env.put.Stored? then Reply.Fresh(ToolResult(a, env.tool))
           else Unrecorded(FlagUnrecorded(ToolResult(a, env.tool))))
  {
    var m1 := Advance(file, l, Start(a), env);
    var m2 := Advance(file, m1.ledger, m1.stage, env);
    assert Solo(file, l, Start(a), env) == Solo(file, m1.ledger, m1.stage, env);
    if m2.stage.Done? {
      assert Solo(file, m2.ledger, m2.stage, env) == SoloRun(m2.ledger, m2.stage, 0);
    } else {
      var m3 := Advance(file, m2.ledger, m2.stage, env);
      if m3.stage.Done? {
        assert Solo(file, m3.ledger, m3.stage, env) == SoloRun(m3.ledger, m3.stage, 0);
      } else {
        SoloFromRecord(file, m3.ledger, a, ToolResult(a, env.tool), env);
      }
      assert Solo(file, m2.ledger, m2.stage, env) == Solo(file, m3.ledger, m3.stage, env);
    }
  }

  lemma SoloFromRecord(file: StateFile, l: Ledger, a: AuthorizedAction, r: Result, env: World)
    ensures Solo(file, l, Record(a, r), env) ==
      (match env.put
       case Stored => SoloRun(Mark(Put(l, a.Key(), r), a.Key(), Completed), Done(a, Reply.Fresh(r)), 0)
       case Lost => SoloRun(l, Done(a, Unrecorded(FlagUnrecorded(r))), 0)
       case StoredButRaised => SoloRun(Put(l, a.Key(), r), Done(a, Unrecorded(FlagUnrecorded(r))), 0))
  {
    var m := Advance(file, l, Record(a, r), env);
    if m.stage.Complete? {
      var n := Advance(file, m.ledger, m.stage, env);
      assert Solo(file, n.ledger, n.stage, env) == SoloRun(n.ledger, n.stage, 0);
      assert Solo(file, m.ledger, m.stage, env) == SoloRun(n.ledger, n.stage, 0);
    } else {
      assert Solo(file, m.ledger, m.stage, env) == SoloRun(m.ledger, m.stage, 0);
    }
  }

  // ------------------------------------------------- what the results say ---

  /** The result says what the tool reported of this action. */
  predicate Reports(r: Result, a: AuthorizedAction, end: ToolEnd) {
    && end.Finished? && r.status == end.status && r.message == end.message && r.evidence == end.evidence
    && r.actionId == a.proposal.id && r.fingerprint == a.proposal.Fingerprint()
  }

  /** The same, with nothing taken from the evidence but flagged as not recorded. */
  predicate ReportsFlagged(r: Result, a: AuthorizedAction, end: ToolEnd) {
    && end.Finished? && r.status == end.status && r.message == end.message
    && r.actionId == a.proposal.id && r.fingerprint == a.proposal.Fingerprint()
    && r.evidence.Keys == end.evidence.Keys + {"durable_ledger", "ledger_error"}
    && r.evidence["durable_ledger"] == "unrecorded"
    && forall q <- end.evidence :: q == "durable_ledger" || q == "ledger_error" || r.evidence[q] == end.evidence[q]
  }

  /** A RESULT IS THE TOOL'S OWN REPORT: when a call left alone runs the tool and it
      finishes, whatever it reports is what the reply says and, where the write lands,
      what is stored; the intent names the action and the epoch of its grant, and is
      COMPLETED exactly when the write was seen to land. */
  lemma ResultIsTheTools(file: StateFile, l: Ledger, a: AuthorizedAction, env: World)
    requires a.Bound() && IsFresh(file, a) && a.Key() !in l.results && a.Key() !in l.intents
    requires !env.claimRefused && env.valid && env.tool.Finished?
    ensures var r := Solo(file, l, Check(a), env);
      var k := a.proposal.Fingerprint();
      && r.stage.Done? && (if env.put.Stored? then r.stage.reply.Fresh? && Reports(r.stage.reply.result, a, env.tool)
          else r.stage.reply.Unrecorded? && ReportsFlagged(r.stage.reply.result, a, env.tool))
      && (k in r.ledger.results <==> !env.put.Lost?)
      && (k in r.ledger.results ==> Reports(r.ledger.results[k], a, env.tool))
      && k in r.ledger.intents && r.ledger.intents[k] == Intent(if env.put.Stored? then Completed else Started, k, a.grant.epoch)
  {
    var k := a.Key();
    SoloToClaim(file, l, a, env);
    SoloAtClaim(file, l, a, env);
    SoloFromStart(file, ClaimIntent(l, k, Intent(Recorded, k, a.grant.epoch)), a, env);
  }

  /** Otherwise no result is stored; the tool is not called for an invalid action, and
      the intent of a call that won the claim stays STARTED. */
  lemma NoResultWithoutAFinish(file: StateFile, l: Ledger, a: AuthorizedAction, env: World)
    requires a.Bound() && IsFresh(file, a) && a.Key() !in l.results && a.Key() !in l.intents
    requires !env.claimRefused && !(env.valid && env.tool.Finished?)
    ensures var r := Solo(file, l, Check(a), env);
      && r.ledger == Ledger(l.results, l.intents[a.Key() := Intent(Started, a.Key(), a.grant.epoch)])
      && r.stage == Done(a, if env.valid then PathRefused else InvalidAction) && r.runs == if env.valid then 1 else 0
  {
    var k := a.Key();
    SoloToClaim(file, l, a, env);
    SoloAtClaim(file, l, a, env);
    SoloFromStart(file, ClaimIntent(l, k, Intent(Recorded, k, a.grant.epoch)), a, env);
  }

  /** An artifact that is not bound to its proposal is refused before anything else,
      and a call that lost the claim answers with what it then finds recorded. */
  lemma RefusalsComeFirst(file: StateFile, l: Ledger, a: AuthorizedAction, env: World)
    ensures a.grant.proposalId != a.proposal.id || a.grant.fingerprint != a.proposal.Fingerprint() ==>
      Advance(file, l, Check(a), env) == Move(l, Done(a, IntegrityFailure), false)
      && Solo(file, l, Check(a), env) == SoloRun(l, Done(a, IntegrityFailure), 0)
    ensures Advance(file, l, Relook(a), env) ==
      Move(l, Done(a, if a.Key() in l.results then Duplicate(MarkDuplicate(l.results[a.Key()])) else OutcomeUnknown), false)
  {
    var m := Advance(file, l, Check(a), env);
    if m.stage.Done? { assert Solo(file, m.ledger, m.stage, env) == SoloRun(m.ledger, m.stage, 0); }
  }

  /** What the three ledger operations do: a claim is the first writer's, a mark moves
      an existing intent's status alone, a result is written at its key. */
  lemma LedgerOperations(l: Ledger, k: ActionKey, i: Intent, status: IntentStatus, r: Result)
    ensures ClaimIntent(l, k, i) == if k in l.intents then l else Ledger(l.results, l.intents[k := i])
    ensures Mark(l, k, status) ==
      if k in l.intents then Ledger(l.results, l.intents[k := Intent(status, l.intents[k].fingerprint, l.intents[k].epoch)]) else l
    ensures Put(l, k, r) == Ledger(l.results[k := r], l.intents)
  {
  }

  /** A duplicate is the recorded result with a mark and a message of its own. */
  lemma DuplicateKeeps(r: Result)
    ensures var d := MarkDuplicate(r);
      && d.status == r.status && d.actionId == r.actionId && d.fingerprint == r.fingerprint
      && d.evidence.Keys == r.evidence.Keys + {"duplicate_blocked"} && d.evidence["duplicate_blocked"] == "true"
      && (forall q <- r.evidence :: q == "duplicate_blocked" || d.evidence[q] == r.evidence[q])
      && d.message == "action already executed; re-execution refused"
  {
  }

  // ------------------------------------------------------- the live objects ---

  class InMemoryLedger {
    var results: map<ActionKey, Result>
    var intents: map<ActionKey, Intent>

    ghost function View(): Ledger
      reads this
    {
      Ledger(results, intents)
    }

    constructor ()
      ensures View() == NO_LEDGER
    {
      results, intents := map[], map[];
    }

    method PutResult(k: ActionKey, r: Result)
      modifies this
      ensures View() == Put(old(View()), k, r)
    {
      results := results[k := r];
    }

    method TryClaim(k: ActionKey, i: Intent) returns (won: bool)
      modifies this
      ensures won == (k !in old(intents))
      ensures View() == ClaimIntent(old(View()), k, i)
    {
      if k in intents { return false; }
      intents := intents[k := i];
      won := true;
    }

    method MarkIntent(k: ActionKey, s: IntentStatus)
      modifies this
      ensures View() == Mark(old(View()), k, s)
    {
      if k in intents {
        intents := intents[k := intents[k].(status := s)];
      }
    }
  }

  class Executor {
    const store: AuthorityStore
    const ledger: InMemoryLedger
    /** Every tool invocation ever begun, by fingerprint. */
    ghost var runs: multiset<ActionKey>

    constructor (store: AuthorityStore, ledger: InMemoryLedger)
      ensures this.store == store && this.ledger == ledger && runs == multiset{}
    {
      this.store, this.ledger := store, ledger;
      runs := multiset{};
    }

    /** The whole call, in the source's order of effects, is the uninterrupted
        chain of atomic actions. */
    method Execute(a: AuthorizedAction, env: World) returns (reply: Reply)
      modifies this, ledger
      ensures var r := Solo(store.file, old(ledger.View()), Check(a), env);
        && ledger.View() == r.ledger && r.stage == Done(a, reply)
        && runs == old(runs)[a.Key() := old(runs)[a.Key()] + r.runs]
    {
      ghost var l0 := ledger.View();
      var file := store.file;
      var k := a.Key();
      if !a.Bound() { return IntegrityFailure; }
      if !IsFresh(file, a) { return RevokedOrStale; }
      SoloToClaim(file, l0, a, env);
      if k in ledger.results {
        return Duplicate(MarkDuplicate(ledger.results[k]));
      }
      SoloAtClaim(file, l0, a, env);
      var won := false;
      if !env.claimRefused {
        won := ledger.TryClaim(k, Intent(Recorded, k, a.grant.epoch));
      }
      if !won {
        // without interference the second lookup cannot find what the first one missed
        return OutcomeUnknown;
      }
      ghost var l1 := ledger.View();
      SoloFromStart(file, l1, a, env);
      ledger.MarkIntent(k, Started);
      if !env.valid { return InvalidAction; }
      runs := runs[k := runs[k] + 1];
      if env.tool.PathDenied? { return PathRefused; }
      var result := ToolResult(a, env.tool);
      if !env.put.Lost? {
        ledger.PutResult(k, result);
      }
      if !env.put.Stored? {
        return Unrecorded(FlagUnrecorded(result));
      }
      ledger.MarkIntent(k, Completed);
      reply := Reply.Fresh(result);
    }
  }
}
