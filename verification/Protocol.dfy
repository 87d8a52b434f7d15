/** The authorize / execute / recover protocol as a step machine: any number of
    workers in any number of processes, a durable ledger and owner state, volatile
    tables of issued artifacts, owner actions, failing writes and crashes. */
module Protocol {
  import opened Common
  import opened Authority
  import opened Execution

  /** A coroutine `slot` inside the process `process`. */
  datatype Worker = Worker(process: nat, slot: nat)

  /** The last five fields are history: artifacts ever minted, those of them minted
      since the state file was last removed, and, by fingerprint, owner-granted mints,
      tool invocations begun, and ALLOW answers. */
  datatype State = State(
    file: StateFile,
    ledger: Ledger,
    issued: map<nat, map<string, AuthorizedAction>>,
    stages: map<Worker, Stage>,
    minted: set<AuthorizedAction>,
    current: set<AuthorizedAction>,
    ownerMints: multiset<ActionKey>,
    runs: multiset<ActionKey>,
    allows: multiset<ActionKey>)

  const INIT := State(Missing, NO_LEDGER, map[], map[], {}, {}, multiset{}, multiset{}, multiset{})

  datatype Event =
    | OwnerGrants
    | OwnerRevokes
    | OwnerInstructs(instruction: Instruction)
    | OwnerDropsRule(id: string)
    | Answers(request: string, decision: OwnerDecision, resolver: string)
    // the state file stops being readable, for a while or for good
    | FileFails
    | FileRecovers
    | FileCorrupts
    | FileRemoved
    // the artifact goes to the process's issued table, or straight into execution
    | Authorizes(worker: Worker, proposal: Proposal, cap: Capability, draw: Draw, direct: bool)
    | Takes(worker: Worker, id: string)
    | Works(worker: Worker, env: World)
    | Aborts(worker: Worker)
    | Crashes(process: nat)

  function StageOf(s: State, w: Worker): Stage { if w in s.stages then s.stages[w] else Idle }

  /** A process's artifacts waiting to be taken up, by id. */
  type Table = map<string, AuthorizedAction>

  function Issued(s: State, process: nat): Table {
    if process in s.issued then s.issued[process] else map[]
  }

  function Filed(t: Table, a: AuthorizedAction): Table { t[a.id := a] }

  datatype Taken = Taken(left: Table, action: Option<AuthorizedAction>)

  function TakenFrom(t: Table, reference: Option<string>): Taken {
    if reference.None? || reference.value !in t then Taken(t, None)
    else Taken(t - {reference.value}, Some(t[reference.value]))
  }

  /** What is filed can be taken, and only once. */
  lemma TakenOnce(t: Table, a: AuthorizedAction)
    ensures var first := TakenFrom(Filed(t, a), Some(a.id));
      && first.action == Some(a) && first.left == t - {a.id}
      && TakenFrom(first.left, Some(a.id)) == Taken(first.left, None)
  {
  }

  /** One process's table, live. */
  class TaskRuntime {
    var issued: Table

    constructor ()
      ensures issued == map[]
    {
      issued := map[];
    }

    method Issue(a: AuthorizedAction) returns (reference: string)
      modifies this
      ensures reference == a.id && issued == Filed(old(issued), a)
    {
      issued := issued[a.id := a];
      reference := a.id;
    }

    method Take(reference: Option<string>) returns (a: Option<AuthorizedAction>)
      modifies this
      ensures Taken(issued, a) == TakenFrom(old(issued), reference)
    {
      if reference.None? || reference.value !in issued { return None; }
      a := Some(issued[reference.value]);
      issued := issued - {reference.value};
    }
  }

  predicate Free(s: State, w: Worker) { StageOf(s, w).Idle? || StageOf(s, w).Done? }

  /** What an authorization leaves, its outcome given. */
  function AfterAuthorize(s: State, e: Event, out: AuthOutcome): State
    requires e.Authorizes?
  {
    if !out.reply.Authorized? then s.(file := out.file) else
    var a := out.reply.action;
    var t := s.(file := out.file, minted := s.minted + {a}, current := s.current + {a},
                ownerMints := if a.grant.grantedBy.ByOwner? then s.ownerMints + multiset{a.Key()} else s.ownerMints);
    if e.direct then t.(stages := t.stages[e.worker := Check(a)])
    else t.(issued := t.issued[e.worker.process := Filed(Issued(s, e.worker.process), a)])
  }

  function ApplyAuthorize(policy: Policy, s: State, e: Event): State
    requires e.Authorizes?
  {
    if !Free(s, e.worker) then s
    else AfterAuthorize(s, e, Authorize(policy, s.file, e.proposal, e.cap, e.draw))
  }

  function ApplyTake(s: State, w: Worker, id: string): State {
    var taken := TakenFrom(Issued(s, w.process), Some(id));
    if !Free(s, w) || taken.action.None? then s
    else s.(stages := s.stages[w := Check(taken.action.value)], issued := s.issued[w.process := taken.left])
  }

  function ApplyWork(s: State, w: Worker, env: World): State {
    var m := Advance(s.file, s.ledger, StageOf(s, w), env);
    if StageOf(s, w).Idle? then s else
    s.(ledger := m.ledger, stages := s.stages[w := m.stage],
       runs := if m.ran then s.runs + multiset{StageOf(s, w).action.Key()} else s.runs)
  }

  function ApplyAnswer(s: State, e: Event): State
    requires e.Answers?
  {
    if s.file.Corrupt? then s else
    var st := StateOrEmpty(s.file);
    if !Answerable(st, e.request, e.decision, e.resolver) then s else
    var key := st.conflicts[e.request];
    s.(file := Saved(Answer(st, e.request, e.decision, e.resolver)),
       allows := if e.decision.Allow? && key.Some? then s.allows + multiset{key.value} else s.allows)
  }

  /** One event; an event that is not possible changes nothing. */
  function Apply(policy: Policy, s: State, e: Event): State {
    match e
    case OwnerGrants => if s.file.Corrupt? then s else s.(file := Saved(GrantFull(StateOrEmpty(s.file))))
    case OwnerRevokes => if s.file.Corrupt? then s else s.(file := Saved(Revoke(StateOrEmpty(s.file))))
    case OwnerInstructs(i) => if s.file.Corrupt? then s else s.(file := Saved(Instruct(StateOrEmpty(s.file), i)))
    case OwnerDropsRule(id) =>
      if s.file.Corrupt? then s
      else s.(file := Saved(StateOrEmpty(s.file).(instructions := WithoutId(StateOrEmpty(s.file).instructions, id))))
    case Answers(_, _, _) => ApplyAnswer(s, e)
    case FileFails => s.(file := Seen(s.file, false))
    case FileRecovers => if Ruined(s.file) || s.file.Missing? then s else s.(file := Saved(OnDisk(s.file)))
    case FileCorrupts => s.(file := Corrupt(None))
    case FileRemoved => s.(file := Missing, current := {})
    case Authorizes(_, _, _, _, _) => ApplyAuthorize(policy, s, e)
    case Takes(w, id) => ApplyTake(s, w, id)
    case Works(w, env) => ApplyWork(s, w, env)
    case Aborts(w) => s.(stages := s.stages[w := Idle])
    case Crashes(p) =>
      s.(issued := s.issued[p := map[]], stages := map w | w in s.stages && w.process != p :: s.stages[w])
  }

  /** The machine's tables move as the live ones do: an authorization that is not
      executed at once files its artifact in its own process ... */
  lemma AuthorizingFiles(s: State, e: Event, out: AuthOutcome, process: nat)
    requires e.Authorizes?
    ensures Issued(AfterAuthorize(s, e, out), process) ==
      if out.reply.Authorized? && !e.direct && e.worker.process == process then Filed(Issued(s, process), out.reply.action)
      else Issued(s, process)
  {
  }

  /** ... a worker takes one out of its own ... */
  lemma TakingTakes(s: State, w: Worker, id: string, process: nat)
    ensures var t := ApplyTake(s, w, id);
      var taken := TakenFrom(Issued(s, w.process), Some(id));
      && Issued(t, process) == (if Free(s, w) && w.process == process then taken.left else Issued(s, process))
      && (Free(s, w) ==> StageOf(t, w) == if taken.action.Some? then Check(taken.action.value) else StageOf(s, w))
  {
  }

  /** ... and but for a crash, which empties one, nothing else touches any table. */
  lemma NothingElseMovesTables(policy: Policy, s: State, e: Event, process: nat)
    requires !e.Authorizes? && !e.Takes?
    ensures Issued(Apply(policy, s, e), process) == if e.Crashes? && e.process == process then map[] else Issued(s, process)
  {
  }

  /** THE OWNER'S EVENTS do to the file what the store does to it, when it can be read,
      and nothing at all when it cannot; nothing else moves but the count of ALLOWs. */
  lemma OwnerEventsExactly(policy: Policy, s: State, i: Instruction, id: string, request: string, decision: OwnerDecision, resolver: string)
    ensures var st := StateOrEmpty(s.file);
      var key := if request in st.conflicts then st.conflicts[request] else None;
      var taken := resolver == "owner" && !decision.Unclear? && request in st.conflicts;
      if s.file.Corrupt? then
        forall e | e in [OwnerGrants, OwnerRevokes, OwnerInstructs(i), OwnerDropsRule(id), Answers(request, decision, resolver)] ::
          Apply(policy, s, e) == s
      else
        && Apply(policy, s, OwnerGrants) == s.(file := Saved(GrantFull(st)))
        && Apply(policy, s, OwnerRevokes) == s.(file := Saved(Revoke(st)))
        && Apply(policy, s, OwnerInstructs(i)) == s.(file := Saved(Instruct(st, i)))
        && Apply(policy, s, OwnerDropsRule(id)) == s.(file := Saved(st.(instructions := WithoutId(st.instructions, id))))
        && Apply(policy, s, Answers(request, decision, resolver)) ==
             if taken then s.(file := Saved(Answer(st, request, decision, resolver)),
                              allows := if decision.Allow? && key.Some? then s.allows + multiset{key.value} else s.allows)
             else s
  {
  }

  /** WHAT HAPPENS TO THE FILE from outside: it fails to be read and comes back with
      what it held, is lost, or is removed. */
  lemma FileEventsExactly(policy: Policy, s: State)
    ensures Apply(policy, s, FileFails) == s.(file := if s.file.Saved? then Corrupt(Some(s.file.state)) else s.file)
    ensures Apply(policy, s, FileRecovers) ==
      s.(file := if s.file.Corrupt? && s.file.beneath.Some? then Saved(s.file.beneath.value) else s.file)
    ensures Apply(policy, Apply(policy, s, FileFails), FileRecovers) == Apply(policy, s, FileRecovers)
    ensures Apply(policy, s, FileCorrupts) == s.(file := Corrupt(None))
    ensures Apply(policy, s, FileRemoved) == s.(file := Missing, current := {})
  {
  }

  /** WORK, ABORTS AND CRASHES: a worker inside a call takes its next atomic action on
      the one ledger; an abort leaves it idle, a crash idles its whole process. */
  lemma WorkerEventsExactly(policy: Policy, s: State, w: Worker, env: World, process: nat, v: Worker)
    ensures var t := Apply(policy, s, Works(w, env));
      var m := Advance(s.file, s.ledger, StageOf(s, w), env);
      if StageOf(s, w).Idle? then t == s
      else t == s.(ledger := m.ledger, stages := t.stages, runs := t.runs)
           && StageOf(t, w) == m.stage && (v != w ==> StageOf(t, v) == StageOf(s, v))
           && t.runs == if m.ran then s.runs + multiset{StageOf(s, w).action.Key()} else s.runs
    ensures var t := Apply(policy, s, Aborts(w));
      t == s.(stages := t.stages) && StageOf(t, w) == Idle && (v != w ==> StageOf(t, v) == StageOf(s, v))
    ensures var t := Apply(policy, s, Crashes(process));
      t == s.(stages := t.stages, issued := t.issued) && StageOf(t, v) == if v.process == process then Idle else StageOf(s, v)
  {
  }

  /** AN AUTHORIZATION by a worker between calls leaves what the service leaves; what it
      mints is counted, and filed in the worker's process or taken up at once. */
  lemma AuthorizesExactly(policy: Policy, s: State, w: Worker, p: Proposal, cap: Capability, draw: Draw, direct: bool)
    ensures var t := Apply(policy, s, Authorizes(w, p, cap, draw, direct));
      var out := Authorize(policy, s.file, p, cap, draw);
      if !Free(s, w) then t == s
      else if !out.reply.Authorized? then t == s.(file := out.file)
      else
        var a := out.reply.action;
        && t.file == out.file && t.ledger == s.ledger && t.runs == s.runs && t.allows == s.allows
        && t.minted == s.minted + {a} && t.current == s.current + {a}
        && t.ownerMints == (if a.grant.grantedBy.ByOwner? then s.ownerMints + multiset{a.Key()} else s.ownerMints)
        && (direct ==> t.issued == s.issued && t.stages == s.stages[w := Check(a)])
        && (!direct ==> t.stages == s.stages && Issued(t, w.process) == Issued(s, w.process)[a.id := a])
  {
  }

  /** A run: any finite sequence of events. */
  function Run(policy: Policy, s: State, es: seq<Event>): State
    decreases |es|
  {
    if es == [] then s else Run(policy, Apply(policy, s, es[0]), es[1..])
  }

  // ---------------------------------------------------------- invariants ---

  /** The stages of a call that won the claim, its own final replies included. */
  predicate Owns(stage: Stage) {
    || stage.Start? || stage.Dispatch? || stage.Running? || stage.Record? || stage.Complete?
    || (stage.Done? && (stage.reply.Fresh? || stage.reply.Unrecorded? || stage.reply.InvalidAction? || stage.reply.PathRefused?))
  }

  predicate KeyInv(l: Ledger, runs: multiset<ActionKey>, k: ActionKey) {
    && runs[k] <= 1
    && (runs[k] == 1 ==> k in l.intents && l.intents[k].status != Recorded)
    && (k in l.results ==> runs[k] == 1)
    && (k in l.intents && l.intents[k].status == Completed ==> k in l.results)
  }

  /** What a worker's stage says about the ledger and the history. */
  predicate StageInv(l: Ledger, runs: multiset<ActionKey>, stage: Stage) {
    stage.Idle? ||
    var k := stage.action.Key();
    (Owns(stage) ==> k in l.intents) &&
    match stage
    case Start(_) => k in l.intents && l.intents[k].status == Recorded && runs[k] == 0
    case Dispatch(_) => k in l.intents && l.intents[k].status == Started && runs[k] == 0
    case Running(_) => k in l.intents && l.intents[k].status == Started && runs[k] == 1 && k !in l.results
    case Record(_, r) =>
      && k in l.intents && l.intents[k].status == Started && runs[k] == 1 && k !in l.results
      && r.fingerprint == k
    case Complete(_, r) => k in l.intents && l.intents[k].status == Started && k in l.results && l.results[k] == r
    case Done(_, Fresh(r)) => k in l.results && l.results[k] == r
    case Done(_, Duplicate(r)) => k in l.results && r == MarkDuplicate(l.results[k])
    case Done(_, Unrecorded(r)) =>
      && runs[k] == 1 && UNRECORDED.0 in r.evidence && r.evidence[UNRECORDED.0] == UNRECORDED.1
      && (k in l.results ==> r == FlagUnrecorded(l.results[k]))
      && r.fingerprint == k
    case _ => true
  }

  ghost predicate LedgerInv(s: State) {
    && (forall k :: KeyInv(s.ledger, s.runs, k))
    && (forall k :: k in s.ledger.results ==> s.ledger.results[k].fingerprint == k)
    && (forall w :: w in s.stages ==> StageInv(s.ledger, s.runs, s.stages[w]))
    && (forall v, w :: v in s.stages && w in s.stages && v != w && Owns(s.stages[v]) && Owns(s.stages[w]) ==>
          s.stages[v].action.Key() != s.stages[w].action.Key())
  }

  /** Epochs start at one and a grant opens a later one; an artifact minted over a
      failed read names epoch one.  A lost file grants nothing, so nothing is known of
      its epoch; and a removed file takes along what was known of the artifacts minted
      under it. */
  ghost predicate MintedInv(s: State) {
    && (forall a :: a in s.minted ==> a.Bound() && a.grant.epoch >= 1)
    && (forall a :: a in s.current ==> a in s.minted && !s.file.Missing?)
    && var st := OnDisk(s.file);
       && st.epoch >= (if st.grant.Some? then 2 else 1)
       && (!Ruined(s.file) ==> forall a :: a in s.current ==>
             && a.grant.epoch <= st.epoch
             && (a.grant.epoch == st.epoch && st.grant.Some? ==> st.grant == Some(a.grant.profile)))
  }

  /** Nothing is executed or held that the mint did not make. */
  ghost predicate HeldInv(s: State) {
    && (forall w :: w in s.stages && !s.stages[w].Idle? ==> s.stages[w].action in s.minted)
    && (forall p, id :: p in s.issued && id in s.issued[p] ==> s.issued[p][id] in s.minted)
  }

  ghost predicate OwnerInv(s: State) {
    var st := OnDisk(s.file);
    && st.overrides !! st.denied
    && (forall k :: s.ownerMints[k] + (if k in st.overrides then 1 else 0) <= s.allows[k])
  }

  ghost predicate Inv(s: State) { LedgerInv(s) && MintedInv(s) && HeldInv(s) && OwnerInv(s) }

  // ------------------------------------------- preservation: one work step ---

  predicate SameBut(l: Ledger, l': Ledger, k: ActionKey) {
    l'.results - {k} == l.results - {k} && l'.intents - {k} == l.intents - {k}
  }

  /** The ledger moves at the acting key alone, and an entry there never goes away. */
  lemma AdvanceFrame(file: StateFile, l: Ledger, stage: Stage, env: World)
    requires !stage.Idle?
    ensures var m := Advance(file, l, stage, env);
      var k := stage.action.Key();
      && SameBut(l, m.ledger, k) && l.results.Keys <= m.ledger.results.Keys && l.intents.Keys <= m.ledger.intents.Keys
      && !m.stage.Idle? && m.stage.action == stage.action
      && (m.ran ==> stage.Dispatch? && m.stage.Running?)
      && (!Owns(stage) && Owns(m.stage) ==> k !in l.intents)
      && (Owns(stage) ==> Owns(m.stage))
      && (!Owns(stage) && k in l.intents ==> m.ledger == l)
  {
  }

  lemma AdvanceSound(file: StateFile, l: Ledger, runs: multiset<ActionKey>, stage: Stage, env: World)
    requires !stage.Idle? && StageInv(l, runs, stage) && KeyInv(l, runs, stage.action.Key())
    requires stage.action.Key() in l.results ==> l.results[stage.action.Key()].fingerprint == stage.action.Key()
    ensures var m := Advance(file, l, stage, env);
      var k := stage.action.Key();
      var runs' := if m.ran then runs + multiset{k} else runs;
      && StageInv(m.ledger, runs', m.stage) && KeyInv(m.ledger, runs', k)
      && (k in l.results ==> m.ledger.results[k] == l.results[k])
      && (k in m.ledger.results ==> m.ledger.results[k].fingerprint == k)
  {
    var k := stage.action.Key();
    var m := Advance(file, l, stage, env);
    if stage.Dispatch? {
      assert (runs + multiset{k})[k] == runs[k] + 1;
    }
  }

  /** A worker elsewhere keeps its guarantees: it owns another key, or it owns
      nothing and only relies on entries that stay. */
  lemma StageInvFramed(l: Ledger, l': Ledger, runs: multiset<ActionKey>, runs': multiset<ActionKey>, k: ActionKey, stage: Stage)
    requires StageInv(l, runs, stage)
    requires SameBut(l, l', k) && l.intents.Keys <= l'.intents.Keys && (forall q :: q != k ==> runs'[q] == runs[q])
    requires !stage.Idle? && Owns(stage) ==> stage.action.Key() != k
    requires k in l.results ==> k in l'.results && l'.results[k] == l.results[k]
    ensures StageInv(l', runs', stage)
  {
    if !stage.Idle? && stage.action.Key() != k {
      var q := stage.action.Key();
      assert q in l.results ==> q in l.results - {k};
      assert q in l'.results ==> q in l'.results - {k};
      assert q in l.intents ==> q in l.intents - {k};
      assert q in l.results - {k} ==> (l.results - {k})[q] == (l'.results - {k})[q];
      assert q in l.intents - {k} ==> (l.intents - {k})[q] == (l'.intents - {k})[q];
    }
  }

  lemma KeyInvFramed(l: Ledger, l': Ledger, runs: multiset<ActionKey>, runs': multiset<ActionKey>, k: ActionKey, q: ActionKey)
    requires q != k && SameBut(l, l', k) && runs'[q] == runs[q] && KeyInv(l, runs, q)
    ensures KeyInv(l', runs', q)
    ensures q in l'.results <==> q in l.results
    ensures q in l.results ==> l'.results[q] == l.results[q]
  {
    assert q in l'.results <==> q in l'.results - {k};
    assert q in l.results <==> q in l.results - {k};
    assert q in l'.intents <==> q in l'.intents - {k};
    assert q in l.intents <==> q in l.intents - {k};
    assert q in l.results - {k} ==> (l.results - {k})[q] == (l'.results - {k})[q];
    assert q in l.intents - {k} ==> (l.intents - {k})[q] == (l'.intents - {k})[q];
  }

  ghost predicate KeepsResults(s: State, t: State) {
    && (forall q :: q in s.ledger.results ==> q in t.ledger.results && t.ledger.results[q] == s.ledger.results[q])
    && (forall q :: s.runs[q] <= t.runs[q])
  }

  lemma WorkKeepsKeys(s: State, w: Worker, env: World)
    requires LedgerInv(s)
    ensures var t := ApplyWork(s, w, env);
      && (forall q :: KeyInv(t.ledger, t.runs, q)) && KeepsResults(s, t)
      && (forall q :: q in t.ledger.results ==> t.ledger.results[q].fingerprint == q)
  {
    var t := ApplyWork(s, w, env);
    var stage := StageOf(s, w);
    if !stage.Idle? {
      var k := stage.action.Key();
      assert StageInv(s.ledger, s.runs, stage) && KeyInv(s.ledger, s.runs, k);
      AdvanceFrame(s.file, s.ledger, stage, env);
      AdvanceSound(s.file, s.ledger, s.runs, stage, env);
      forall q ensures KeyInv(t.ledger, t.runs, q) && s.runs[q] <= t.runs[q]
               ensures q in s.ledger.results ==> q in t.ledger.results && t.ledger.results[q] == s.ledger.results[q]
               ensures q in t.ledger.results ==> t.ledger.results[q].fingerprint == q
      {
        if q != k { KeyInvFramed(s.ledger, t.ledger, s.runs, t.runs, k, q); }
      }
    }
  }

  lemma WorkKeepsOtherStage(s: State, w: Worker, env: World, v: Worker)
    requires LedgerInv(s) && v in s.stages && v != w && !StageOf(s, w).Idle?
    ensures var t := ApplyWork(s, w, env); v in t.stages && t.stages[v] == s.stages[v] && StageInv(t.ledger, t.runs, s.stages[v])
    ensures Owns(ApplyWork(s, w, env).stages[w]) && Owns(s.stages[v]) ==> s.stages[v].action.Key() != StageOf(s, w).action.Key()
  {
    var t := ApplyWork(s, w, env);
    var stage := StageOf(s, w);
    var k := stage.action.Key();
    assert StageInv(s.ledger, s.runs, stage) && StageInv(s.ledger, s.runs, s.stages[v]) && KeyInv(s.ledger, s.runs, k);
    AdvanceFrame(s.file, s.ledger, stage, env);
    AdvanceSound(s.file, s.ledger, s.runs, stage, env);
    if t.ledger != s.ledger || t.runs != s.runs {
      StageInvFramed(s.ledger, t.ledger, s.runs, t.runs, k, s.stages[v]);
    }
  }

  lemma WorkKeepsLedgerInv(s: State, w: Worker, env: World)
    requires LedgerInv(s)
    ensures LedgerInv(ApplyWork(s, w, env))
    ensures KeepsResults(s, ApplyWork(s, w, env))
  {
    var t := ApplyWork(s, w, env);
    var stage := StageOf(s, w);
    WorkKeepsKeys(s, w, env);
    if !stage.Idle? {
      assert StageInv(s.ledger, s.runs, stage) && KeyInv(s.ledger, s.runs, stage.action.Key());
      AdvanceSound(s.file, s.ledger, s.runs, stage, env);
      AdvanceFrame(s.file, s.ledger, stage, env);
      forall v | v in t.stages && v != w { WorkKeepsOtherStage(s, w, env, v); }
    }
  }

  // -------------------------------------------- preservation: other events ---

  /** How the state file moves unless it is removed: it never goes back to missing or
      from lost to readable, and the epoch on disk never falls, nor does the grant
      change within one epoch. */
  predicate FileMoved(f: StateFile, g: StateFile) {
    && (Ruined(f) ==> Ruined(g))
    && (!f.Missing? ==> !g.Missing?)
    && (!Ruined(g) ==> OnDisk(f).epoch <= OnDisk(g).epoch)
    && (!Ruined(g) && OnDisk(g).epoch == OnDisk(f).epoch ==> OnDisk(g).grant == OnDisk(f).grant)
  }

  lemma AuthorizeMovesFile(policy: Policy, s: State, e: Event)
    requires e.Authorizes?
    ensures var t := ApplyAuthorize(policy, s, e);
      FileMoved(s.file, t.file) && s.minted <= t.minted && s.current <= t.current && s.allows == t.allows
  {
    AuthorizeKeeps(policy, s.file, e.proposal, e.cap, e.draw);
  }

  lemma FileMoves(policy: Policy, s: State, e: Event)
    ensures var t := Apply(policy, s, e);
      && s.minted <= t.minted && s.allows <= t.allows
      && (!e.FileRemoved? ==> FileMoved(s.file, t.file) && s.current <= t.current)
  {
    if e.Authorizes? { AuthorizeMovesFile(policy, s, e); }
  }

  lemma AuthorizeMints(policy: Policy, s: State, e: Event)
    requires e.Authorizes?
    ensures var t := ApplyAuthorize(policy, s, e);
      forall a :: (a in t.current && a !in s.current) || (a in t.minted && a !in s.minted) ==>
        && a in t.minted && s.file.Saved? && t.file.Saved? && a.Bound()
        && s.file.state.epoch == t.file.state.epoch && s.file.state.grant == t.file.state.grant && s.file.state.grant.Some?
        && ((a.grant.epoch == s.file.state.epoch && s.file.state.grant == Some(a.grant.profile)) || a.grant.epoch == 1)
  {
    MintFacts(policy, s.file, e.proposal, e.cap, e.draw);
  }

  lemma StepKeepsMintedInv(policy: Policy, s: State, e: Event)
    requires MintedInv(s)
    ensures MintedInv(Apply(policy, s, e))
  {
    FileMoves(policy, s, e);
    if e.Authorizes? {
      AuthorizeMints(policy, s, e);
    }
  }

  lemma AuthorizeKeepsHeldInv(policy: Policy, s: State, e: Event)
    requires e.Authorizes? && HeldInv(s)
    ensures HeldInv(ApplyAuthorize(policy, s, e))
  {
    MintFacts(policy, s.file, e.proposal, e.cap, e.draw);
  }

  lemma WorkKeepsHeldInv(s: State, w: Worker, env: World)
    requires HeldInv(s)
    ensures HeldInv(ApplyWork(s, w, env))
  {
    if !StageOf(s, w).Idle? { AdvanceFrame(s.file, s.ledger, StageOf(s, w), env); }
  }

  lemma StepKeepsHeldInv(policy: Policy, s: State, e: Event)
    requires HeldInv(s)
    ensures HeldInv(Apply(policy, s, e))
  {
    if e.Authorizes? {
      AuthorizeKeepsHeldInv(policy, s, e);
    } else if e.Works? {
      WorkKeepsHeldInv(s, e.worker, e.env);
    } else if e.Takes? {
      var t := Apply(policy, s, e);
      forall p, id | p in t.issued && id in t.issued[p] ensures t.issued[p][id] in s.minted {
        assert p in s.issued && id in s.issued[p] && s.issued[p][id] == t.issued[p][id];
      }
    } else if e.Crashes? {
      var t := Apply(policy, s, e);
      forall p, id | p in t.issued && id in t.issued[p] ensures t.issued[p][id] in s.minted {
        assert p in s.issued;
      }
    }
  }

  lemma AuthorizeKeepsOwnerInv(policy: Policy, s: State, e: Event)
    requires e.Authorizes? && OwnerInv(s)
    ensures OwnerInv(ApplyAuthorize(policy, s, e))
  {
    MintFacts(policy, s.file, e.proposal, e.cap, e.draw);
  }

  lemma AnswerKeepsOwnerInv(s: State, e: Event)
    requires e.Answers? && OwnerInv(s)
    ensures OwnerInv(ApplyAnswer(s, e))
  {
    var t := ApplyAnswer(s, e);
    var st := OnDisk(s.file);
    if t != s {
      forall k ensures t.ownerMints[k] + (if k in OnDisk(t.file).overrides then 1 else 0) <= t.allows[k] {
        assert s.ownerMints[k] + (if k in st.overrides then 1 else 0) <= s.allows[k];
      }
    }
  }

  lemma StepKeepsOwnerInv(policy: Policy, s: State, e: Event)
    requires OwnerInv(s)
    ensures OwnerInv(Apply(policy, s, e))
  {
    if e.Authorizes? {
      AuthorizeKeepsOwnerInv(policy, s, e);
    } else if e.Answers? {
      AnswerKeepsOwnerInv(s, e);
    }
  }

  /** Outside a work step a worker keeps its stage, stops, or takes up an artifact. */
  lemma StagesOutsideWork(policy: Policy, s: State, e: Event, w: Worker)
    requires !e.Works? && w in Apply(policy, s, e).stages
    ensures var t := Apply(policy, s, e);
      (w in s.stages && t.stages[w] == s.stages[w]) || t.stages[w].Idle? || t.stages[w].Check?
  {
  }

  lemma LedgerOutsideWork(policy: Policy, s: State, e: Event)
    requires !e.Works?
    ensures Apply(policy, s, e).ledger == s.ledger && Apply(policy, s, e).runs == s.runs
  {
  }

  lemma StepKeepsLedgerInv(policy: Policy, s: State, e: Event)
    requires LedgerInv(s)
    ensures LedgerInv(Apply(policy, s, e)) && KeepsResults(s, Apply(policy, s, e))
  {
    var t := Apply(policy, s, e);
    if e.Works? {
      WorkKeepsLedgerInv(s, e.worker, e.env);
    } else {
      LedgerOutsideWork(policy, s, e);
      forall w | w in t.stages { StagesOutsideWork(policy, s, e, w); }
      LedgerInvByStages(s, t);
    }
  }

  lemma LedgerInvByStages(s: State, t: State)
    requires LedgerInv(s) && t.ledger == s.ledger && t.runs == s.runs
    requires forall w :: w in t.stages ==> (w in s.stages && t.stages[w] == s.stages[w]) || t.stages[w].Idle? || t.stages[w].Check?
    ensures LedgerInv(t)
  {
    forall w | w in t.stages ensures StageInv(t.ledger, t.runs, t.stages[w]) {
      if w in s.stages && t.stages[w] == s.stages[w] { assert StageInv(s.ledger, s.runs, s.stages[w]); }
    }
    forall v, w | v in t.stages && w in t.stages && v != w && Owns(t.stages[v]) && Owns(t.stages[w])
      ensures t.stages[v].action.Key() != t.stages[w].action.Key()
    {
      assert v in s.stages && t.stages[v] == s.stages[v] && w in s.stages && t.stages[w] == s.stages[w];
    }
  }

  lemma InvStep(policy: Policy, s: State, e: Event)
    requires Inv(s)
    ensures Inv(Apply(policy, s, e))
  {
    StepKeepsLedgerInv(policy, s, e);
    StepKeepsMintedInv(policy, s, e);
    StepKeepsHeldInv(policy, s, e);
    StepKeepsOwnerInv(policy, s, e);
  }

  // ------------------------------------------------------- whole-run results ---

  lemma {:induction false} InvRun(policy: Policy, s: State, es: seq<Event>)
    requires Inv(s)
    ensures Inv(Run(policy, s, es))
    ensures KeepsResults(s, Run(policy, s, es))
    decreases |es|
  {
    if es != [] {
      InvStep(policy, s, es[0]);
      StepKeepsLedgerInv(policy, s, es[0]);
      InvRun(policy, Apply(policy, s, es[0]), es[1..]);
    }
  }

  lemma {:induction false} RunConcat(policy: Policy, s: State, xs: seq<Event>, ys: seq<Event>)
    ensures Run(policy, s, xs + ys) == Run(policy, Run(policy, s, xs), ys)
    decreases |xs|
  {
    if xs == [] {
      assert xs + ys == ys;
    } else {
      assert (xs + ys)[1..] == xs[1..] + ys;
      RunConcat(policy, Apply(policy, s, xs[0]), xs[1..], ys);
    }
  }
}
