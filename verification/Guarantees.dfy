/** What holds over every run of the protocol, whatever is interleaved with what. */
module Guarantees {
  import opened Common
  import opened Authority
  import opened Execution
  import opened Protocol

  // ------------------------------------------------------------- execution ---

  /** AT MOST ONCE: in every run whatever, with crashes, restarts, failing writes
      and any recovery decisions in between, the tool is invoked at most once for
      each fingerprint, and never without a durable, started intent. */
  lemma AtMostOnce(policy: Policy, es: seq<Event>, k: ActionKey)
    ensures var s := Run(policy, INIT, es);
      && s.runs[k] <= 1
      && (s.runs[k] == 1 ==> k in s.ledger.intents && s.ledger.intents[k].status != Recorded)
  {
    InvRun(policy, INIT, es);
    assert KeyInv(Run(policy, INIT, es).ledger, Run(policy, INIT, es).runs, k);
  }

  /** THE LEDGER TELLS THE TRUTH in every reachable state: a result implies a
      started claim and a run, COMPLETED implies a result, a stored result never
      changes afterwards, and every reply a worker holds agrees with it. */
  lemma LedgerIsTruthful(policy: Policy, es: seq<Event>, later: seq<Event>, k: ActionKey, w: Worker)
    ensures var s := Run(policy, INIT, es);
      var t := Run(policy, s, later);
      && (k in s.ledger.results ==>
            && k in s.ledger.intents && s.ledger.intents[k].status != Recorded && s.runs[k] == 1
            && k in t.ledger.results && t.ledger.results[k] == s.ledger.results[k] && t.runs[k] == 1)
      && (k in s.ledger.intents && s.ledger.intents[k].status == Completed ==> k in s.ledger.results)
      && var stage := StageOf(t, w);
         (stage.Done? && stage.action.Key() == k ==>
           && (stage.reply.Fresh? ==> k in t.ledger.results && t.ledger.results[k] == stage.reply.result)
           && (stage.reply.Duplicate? ==> k in t.ledger.results && stage.reply.result == MarkDuplicate(t.ledger.results[k]))
           && (stage.reply.Unrecorded? ==> t.runs[k] == 1))
  {
    var s := Run(policy, INIT, es);
    InvRun(policy, INIT, es);
    InvRun(policy, s, later);
    var t := Run(policy, s, later);
    assert KeyInv(s.ledger, s.runs, k) && KeyInv(t.ledger, t.runs, k);
    RepliesAreTruthful(t, w);
  }

  lemma RepliesAreTruthful(t: State, w: Worker)
    requires LedgerInv(t)
    ensures var stage := StageOf(t, w);
      stage.Done? ==>
        var k := stage.action.Key();
        && (stage.reply.Fresh? ==> k in t.ledger.results && t.ledger.results[k] == stage.reply.result)
        && (stage.reply.Duplicate? ==> k in t.ledger.results && stage.reply.result == MarkDuplicate(t.ledger.results[k]))
        && (stage.reply.Unrecorded? ==> t.runs[k] == 1)
  {
    if w in t.stages { assert StageInv(t.ledger, t.runs, t.stages[w]); }
  }

  /** At most one worker in the whole system holds the outcome of a real run of a
      fingerprint; every other reply is a marked duplicate or a refusal. */
  lemma OneOwnerPerKey(policy: Policy, es: seq<Event>, v: Worker, w: Worker)
    ensures var s := Run(policy, INIT, es);
      v != w && Owns(StageOf(s, v)) && Owns(StageOf(s, w)) ==> StageOf(s, v).action.Key() != StageOf(s, w).action.Key()
  {
    InvRun(policy, INIT, es);
  }

  /** Once recorded, always replayed: with a recorded result, any later fresh call
      that is left alone answers with exactly that result, marked. */
  lemma RecordedIsReplayed(policy: Policy, es: seq<Event>, later: seq<Event>, a: AuthorizedAction, env: World)
    requires a.Key() in Run(policy, INIT, es).ledger.results
    requires a.Bound() && IsFresh(Run(policy, Run(policy, INIT, es), later).file, a)
    ensures var s := Run(policy, INIT, es);
      var t := Run(policy, s, later);
      Solo(t.file, t.ledger, Check(a), env) ==
        SoloRun(t.ledger, Done(a, Duplicate(MarkDuplicate(s.ledger.results[a.Key()]))), 0)
  {
    var s := Run(policy, INIT, es);
    InvRun(policy, INIT, es);
    InvRun(policy, s, later);
    SoloMeaning(Run(policy, s, later).file, Run(policy, s, later).ledger, a, env);
  }

  function WorkSteps(w: Worker, env: World, n: nat): (es: seq<Event>)
    ensures |es| == n
  {
    if n == 0 then [] else [Works(w, env)] + WorkSteps(w, env, n - 1)
  }

  /** From `s` to `t` the worker `w` finished its call as `solo` did. */
  predicate Finishes(s: State, w: Worker, t: State, solo: SoloRun) {
    w in s.stages && !s.stages[w].Idle? &&
    var k := s.stages[w].action.Key();
    t.ledger == solo.ledger && w in t.stages && t.stages[w] == solo.stage && t.runs == s.runs[k := s.runs[k] + solo.runs]
  }

  /** The machine and the sequential executor agree: a worker at the head of a
      call that takes its next steps with nothing in between ends as `Solo` says. */
  lemma {:induction false} UninterruptedRunIsSolo(policy: Policy, s: State, w: Worker, env: World, n: nat)
    requires w in s.stages && !s.stages[w].Idle? && n >= Rank(s.stages[w])
    ensures Finishes(s, w, Run(policy, s, WorkSteps(w, env, n)), Solo(s.file, s.ledger, s.stages[w], env))
    decreases n
  {
    if n == 0 {
      assert s.runs[s.stages[w].action.Key() := s.runs[s.stages[w].action.Key()]] == s.runs;
    } else {
      var t, m := ApplyWork(s, w, env), Advance(s.file, s.ledger, s.stages[w], env);
      WorkOnce(s, w, env);
      SoloOnce(s.file, s.ledger, s.stages[w], env);
      RankDrops(s.file, s.ledger, s.stages[w], env);
      RunWork(policy, s, w, env, n);
      UninterruptedRunIsSolo(policy, t, w, env, n - 1);
      FinishesStep(s, w, t, Run(policy, t, WorkSteps(w, env, n - 1)), if m.ran then 1 else 0, Solo(t.file, t.ledger, t.stages[w], env));
    }
  }

  lemma RunWork(policy: Policy, s: State, w: Worker, env: World, n: nat)
    requires n > 0
    ensures Run(policy, s, WorkSteps(w, env, n)) == Run(policy, ApplyWork(s, w, env), WorkSteps(w, env, n - 1))
  {
    assert WorkSteps(w, env, n)[1..] == WorkSteps(w, env, n - 1);
  }

  lemma FinishesStep(s: State, w: Worker, mid: State, t: State, ran: nat, solo: SoloRun)
    requires w in s.stages && !s.stages[w].Idle? && Finishes(mid, w, t, solo)
    requires mid.stages[w].action.Key() == s.stages[w].action.Key()
    requires var k := s.stages[w].action.Key(); mid.runs == s.runs[k := s.runs[k] + ran]
    ensures Finishes(s, w, t, solo.(runs := solo.runs + ran))
  {
  }

  lemma WorkOnce(s: State, w: Worker, env: World)
    requires w in s.stages && !s.stages[w].Idle?
    ensures var t, m := ApplyWork(s, w, env), Advance(s.file, s.ledger, s.stages[w], env);
      var k := s.stages[w].action.Key();
      && t.file == s.file && t.ledger == m.ledger && w in t.stages && t.stages[w] == m.stage
      && !m.stage.Idle? && m.stage.action.Key() == k
      && t.runs == s.runs[k := s.runs[k] + if m.ran then 1 else 0]
  {
    AdvanceFrame(s.file, s.ledger, s.stages[w], env);
  }

  lemma RankDrops(file: StateFile, l: Ledger, stage: Stage, env: World)
    ensures var m := Advance(file, l, stage, env);
      if Rank(stage) == 0 then m == Move(l, stage, false) else Rank(m.stage) < Rank(stage)
  {
  }

  lemma SoloOnce(file: StateFile, l: Ledger, stage: Stage, env: World)
    ensures var m := Advance(file, l, stage, env);
      var rest := Solo(file, m.ledger, m.stage, env);
      && Solo(file, l, stage, env) == rest.(runs := rest.runs + if m.ran then 1 else 0)
      && (Rank(stage) == 0 ==> rest == SoloRun(l, stage, 0))
  {
    if Rank(stage) == 0 { RankDrops(file, l, stage, env); }
  }

  // --------------------------------------------------- where results come from ---

  /** At event `i` the tool finished for `k`, and `r` is what it reported. */
  ghost predicate ReportedAt(policy: Policy, es: seq<Event>, i: nat, k: ActionKey, r: Result)
    requires i < |es|
  {
    var s := Run(policy, INIT, es[..i]);
    && es[i].Works? && StageOf(s, es[i].worker).Running?
    && StageOf(s, es[i].worker).action.Key() == k && Reports(r, StageOf(s, es[i].worker).action, es[i].env.tool)
  }

  ghost predicate Reported(policy: Policy, es: seq<Event>, k: ActionKey, r: Result) {
    exists i :: 0 <= i < |es| && ReportedAt(policy, es, i, k, r)
  }

  /** Every result stored, or on its way to be, was reported. */
  ghost predicate AllReported(policy: Policy, es: seq<Event>, s: State) {
    && (forall k <- s.ledger.results :: Reported(policy, es, k, s.ledger.results[k]))
    && (forall w <- s.stages :: s.stages[w].Record? ==> Reported(policy, es, s.stages[w].action.Key(), s.stages[w].result))
  }

  lemma ReportedLater(policy: Policy, es: seq<Event>, e: Event, k: ActionKey, r: Result)
    requires Reported(policy, es, k, r)
    ensures Reported(policy, es + [e], k, r)
  {
    var i :| 0 <= i < |es| && ReportedAt(policy, es, i, k, r);
    assert (es + [e])[..i] == es[..i];
    assert ReportedAt(policy, es + [e], i, k, r);
  }

  /** One atomic action: a result appears in the worker's hand as the tool reported
      it, and in the ledger as the worker held it. */
  lemma AdvanceReports(file: StateFile, l: Ledger, stage: Stage, env: World)
    requires !stage.Idle?
    ensures var m := Advance(file, l, stage, env);
      && (m.stage.Record? ==> stage.Running? && m.stage.action == stage.action && Reports(m.stage.result, stage.action, env.tool))
      && (forall k <- m.ledger.results ::
            (k in l.results && m.ledger.results[k] == l.results[k])
            || (stage.Record? && k == stage.action.Key() && m.ledger.results[k] == stage.result))
  {
  }

  lemma WorkReports(policy: Policy, es: seq<Event>, e: Event)
    requires e.Works? && AllReported(policy, es, Run(policy, INIT, es))
    ensures AllReported(policy, es + [e], ApplyWork(Run(policy, INIT, es), e.worker, e.env))
  {
    var s := Run(policy, INIT, es);
    var t := ApplyWork(s, e.worker, e.env);
    var stage := StageOf(s, e.worker);
    if !stage.Idle? { AdvanceReports(s.file, s.ledger, stage, e.env); }
    forall k | k in t.ledger.results ensures Reported(policy, es + [e], k, t.ledger.results[k]) {
      ReportedLater(policy, es, e, k, t.ledger.results[k]);
    }
    forall w | w in t.stages && t.stages[w].Record? ensures Reported(policy, es + [e], t.stages[w].action.Key(), t.stages[w].result) {
      if w == e.worker && !stage.Idle? {
        assert (es + [e])[..|es|] == es;
        assert ReportedAt(policy, es + [e], |es|, stage.action.Key(), t.stages[w].result);
      } else {
        ReportedLater(policy, es, e, t.stages[w].action.Key(), t.stages[w].result);
      }
    }
  }

  lemma OtherEventReports(policy: Policy, es: seq<Event>, e: Event)
    requires !e.Works? && AllReported(policy, es, Run(policy, INIT, es))
    ensures AllReported(policy, es + [e], Apply(policy, Run(policy, INIT, es), e))
  {
    var s := Run(policy, INIT, es);
    var t := Apply(policy, s, e);
    LedgerOutsideWork(policy, s, e);
    forall k | k in t.ledger.results ensures Reported(policy, es + [e], k, t.ledger.results[k]) {
      ReportedLater(policy, es, e, k, t.ledger.results[k]);
    }
    forall w | w in t.stages && t.stages[w].Record? ensures Reported(policy, es + [e], t.stages[w].action.Key(), t.stages[w].result) {
      StagesOutsideWork(policy, s, e, w);
      ReportedLater(policy, es, e, s.stages[w].action.Key(), s.stages[w].result);
    }
  }

  /** EVERY STORED RESULT WAS REPORTED: over every run, what the ledger holds for an
      action is, field by field, what the tool reported at the very event at which some
      worker's call of it finished. */
  lemma {:induction false} StoredMeansReported(policy: Policy, es: seq<Event>)
    ensures AllReported(policy, es, Run(policy, INIT, es))
    decreases |es|
  {
    if es != [] {
      var n := |es| - 1;
      assert es[..n] + [es[n]] == es;
      StoredMeansReported(policy, es[..n]);
      RunConcat(policy, INIT, es[..n], [es[n]]);
      assert [es[n]][1..] == [];
      if es[n].Works? { WorkReports(policy, es[..n], es[n]); } else { OtherEventReports(policy, es[..n], es[n]); }
    }
  }

  // ------------------------------------------------------------ revocation ---

  predicate Dead(file: StateFile, a: AuthorizedAction) {
    Ruined(file) || a.grant.epoch < OnDisk(file).epoch
  }

  /** Nobody removes the state file. */
  predicate FileStays(es: seq<Event>) { forall e <- es :: !e.FileRemoved? }

  lemma {:induction false} DeadStaysDead(policy: Policy, s: State, es: seq<Event>, a: AuthorizedAction)
    requires Dead(s.file, a) && FileStays(es)
    ensures Dead(Run(policy, s, es).file, a)
    decreases |es|
  {
    if es != [] {
      FileMoves(policy, s, es[0]);
      DeadStaysDead(policy, Apply(policy, s, es[0]), es[1..], a);
    }
  }

  /** REVOCATION IS FINAL while the state file stays: an artifact minted before a
      revoke never passes the freshness check after it, whatever is granted again
      later and however often the file fails to be read.  (`current` is all that was
      minted, unless the file had been removed.)  A revoke that cannot read the file
      raises, and changes nothing. */
  lemma RevokedForGood(policy: Policy, before: seq<Event>, after: seq<Event>, a: AuthorizedAction)
    requires a in Run(policy, INIT, before).current && FileStays(after)
    ensures var s := Run(policy, INIT, before);
      if s.file.Corrupt? && !Ruined(s.file) then Apply(policy, s, OwnerRevokes) == s
      else !IsFresh(Run(policy, Apply(policy, s, OwnerRevokes), after).file, a)
  {
    var s := Run(policy, INIT, before);
    InvRun(policy, INIT, before);
    if !s.file.Corrupt? || Ruined(s.file) { DeadStaysDead(policy, Apply(policy, s, OwnerRevokes), after, a); }
  }

  lemma {:induction false} CurrentIsMinted(policy: Policy, s: State, es: seq<Event>)
    requires s.current == s.minted && FileStays(es)
    ensures Run(policy, s, es).current == Run(policy, s, es).minted
    decreases |es|
  {
    if es != [] { CurrentIsMinted(policy, Apply(policy, s, es[0]), es[1..]); }
  }

  function Revokes(n: nat): (es: seq<Event>)
    ensures |es| == n && forall e <- es :: e == OwnerRevokes
  {
    if n == 0 then [] else [OwnerRevokes] + Revokes(n - 1)
  }

  lemma {:induction false} RevokesCount(policy: Policy, s: State, n: nat)
    requires !s.file.Corrupt? && StateOrEmpty(s.file).grant.None?
    ensures var t := Run(policy, s, Revokes(n));
      && !t.file.Corrupt? && StateOrEmpty(t.file).epoch == StateOrEmpty(s.file).epoch + n && StateOrEmpty(t.file).grant.None?
    decreases n
  {
    if n > 0 {
      assert Revokes(n)[1..] == Revokes(n - 1);
      RevokesCount(policy, Apply(policy, s, OwnerRevokes), n - 1);
    }
  }

  /** AND ONLY WHILE IT STAYS: once the file is removed the epochs start over, and
      the owner's own revokes and grants can make an artifact pass the check again,
      exactly when it names an epoch of two or more, as every one does that was not
      minted over a failed read. */
  lemma RemovalRevives(policy: Policy, es: seq<Event>, a: AuthorizedAction)
    requires a in Run(policy, INIT, es).minted
    ensures var removed := Apply(policy, Run(policy, INIT, es), FileRemoved);
      (exists later :: FileStays(later) && IsFresh(Run(policy, removed, later).file, a)) <==> a.grant.epoch >= 2
  {
    var s := Run(policy, INIT, es);
    var removed := Apply(policy, s, FileRemoved);
    assert MintedInv(removed) && Inv(removed) by {
      InvRun(policy, INIT, es);
      InvStep(policy, s, FileRemoved);
    }
    if a.grant.epoch >= 2 {
      var later := GrantAtEpoch(policy, removed, a.grant.epoch);
    } else {
      forall later ensures !IsFresh(Run(policy, removed, later).file, a) { NeverFresh(policy, removed, later, a); }
    }
  }

  lemma NeverFresh(policy: Policy, s: State, later: seq<Event>, a: AuthorizedAction)
    requires Inv(s) && a.grant.epoch < 2
    ensures !IsFresh(Run(policy, s, later).file, a)
  {
    assert MintedInv(Run(policy, s, later)) by { InvRun(policy, s, later); }
  }

  /** From a fresh file the owner can have a grant in force at any later epoch. */
  lemma GrantAtEpoch(policy: Policy, s: State, epoch: nat) returns (later: seq<Event>)
    requires s.file.Missing? && epoch >= 2
    ensures FileStays(later)
    ensures var t := Run(policy, s, later); t.file.Saved? && t.file.state.epoch == epoch && t.file.state.grant.Some?
  {
    var n := epoch - 2;
    var t := Run(policy, s, Revokes(n));
    later := Revokes(n) + [OwnerGrants];
    RevokesCount(policy, s, n);
    RunConcat(policy, s, Revokes(n), [OwnerGrants]);
    assert Run(policy, t, [OwnerGrants]) == Apply(policy, t, OwnerGrants) by { assert [OwnerGrants][1..] == []; }
  }

  /** Whatever passes the check, of what was minted since the file was last removed,
      was minted under the very grant now in force. */
  lemma FreshMeansCurrentGrant(policy: Policy, es: seq<Event>, a: AuthorizedAction)
    ensures var s := Run(policy, INIT, es);
      a in s.current && IsFresh(s.file, a) ==> s.file.Saved? && s.file.state.grant == Some(a.grant.profile)
  {
    InvRun(policy, INIT, es);
  }

  /** Past the freshness check and not yet finished. */
  predicate InFlight(stage: Stage) { !stage.Idle? && !stage.Check? && !stage.Done? }

  lemma InFlightWork(s: State, v: Worker, env: World, w: Worker, a: AuthorizedAction)
    requires Dead(s.file, a)
    requires InFlight(StageOf(ApplyWork(s, v, env), w)) && StageOf(ApplyWork(s, v, env), w).action == a
    ensures InFlight(StageOf(s, w)) && StageOf(s, w).action == a
  {
    if v == w && !StageOf(s, w).Idle? { AdvanceFrame(s.file, s.ledger, StageOf(s, w), env); }
  }

  /** The one gap the single check leaves: after a revoke, an older artifact is
      being worked on only by a worker that had passed the check before it. */
  lemma {:induction false} OnlyInFlightSurvives(policy: Policy, s: State, es: seq<Event>, w: Worker, a: AuthorizedAction)
    requires Dead(s.file, a) && FileStays(es)
    requires InFlight(StageOf(Run(policy, s, es), w)) && StageOf(Run(policy, s, es), w).action == a
    ensures InFlight(StageOf(s, w)) && StageOf(s, w).action == a
    decreases |es|
  {
    if es != [] {
      var t := Apply(policy, s, es[0]);
      FileMoves(policy, s, es[0]);
      OnlyInFlightSurvives(policy, t, es[1..], w, a);
      if es[0].Works? {
        InFlightWork(s, es[0].worker, es[0].env, w, a);
      } else {
        assert w in t.stages;
        StagesOutsideWork(policy, s, es[0], w);
      }
    }
  }

  // --------------------------------------------------- overrides and denials ---

  /** CONSERVATION: owner-granted artifacts, plus a stored override, never exceed
      the owner's ALLOW answers for that fingerprint. */
  lemma OverrideConservation(policy: Policy, es: seq<Event>, k: ActionKey)
    ensures var s := Run(policy, INIT, es);
      && s.ownerMints[k] + (if k in OnDisk(s.file).overrides then 1 else 0) <= s.allows[k]
      && OnDisk(s.file).overrides !! OnDisk(s.file).denied
  {
    InvRun(policy, INIT, es);
  }

  predicate Asks(file: StateFile, request: string, k: ActionKey) {
    var st := OnDisk(file);
    request in st.conflicts && st.conflicts[request] == Some(k)
  }

  /** The owner's denial stands, unless the file is lost and nothing is granted. */
  predicate Barred(file: StateFile, k: ActionKey) { Ruined(file) || k in OnDisk(file).denied }

  /** An authorization of the action whose look at the denials fails. */
  predicate Overlooks(e: Event, k: ActionKey) {
    e.Authorizes? && e.proposal.Fingerprint() == k && !e.draw.access.atDenial
  }

  lemma DeniedStep(policy: Policy, s: State, e: Event, k: ActionKey)
    requires OwnerInv(s) && Barred(s.file, k) && !e.FileRemoved?
    requires Apply(policy, s, e).allows[k] == s.allows[k]
    ensures var t := Apply(policy, s, e);
      && Barred(t.file, k) && t.ownerMints[k] == s.ownerMints[k]
      && (!Overlooks(e, k) ==> forall r :: Asks(t.file, r, k) ==> Asks(s.file, r, k))
  {
    if e.Authorizes? {
      DeniedAuthorize(policy, s, e, k);
    } else if e.Answers? {
      DeniedAnswer(s, e, k);
    }
  }

  lemma DeniedAuthorize(policy: Policy, s: State, e: Event, k: ActionKey)
    requires e.Authorizes? && OwnerInv(s) && Barred(s.file, k)
    ensures var t := ApplyAuthorize(policy, s, e);
      && Barred(t.file, k) && t.ownerMints[k] == s.ownerMints[k]
      && (!Overlooks(e, k) ==> forall r :: Asks(t.file, r, k) ==> Asks(s.file, r, k))
  {
    AuthorizeKeeps(policy, s.file, e.proposal, e.cap, e.draw);
    MintFacts(policy, s.file, e.proposal, e.cap, e.draw);
  }

  lemma DeniedAnswer(s: State, e: Event, k: ActionKey)
    requires e.Answers? && Barred(s.file, k)
    requires ApplyAnswer(s, e).allows[k] == s.allows[k]
    ensures var t := ApplyAnswer(s, e);
      && Barred(t.file, k) && t.ownerMints[k] == s.ownerMints[k]
      && forall r :: Asks(t.file, r, k) ==> Asks(s.file, r, k)
  {
    var st := StateOrEmpty(s.file);
    if !s.file.Corrupt? && Answerable(st, e.request, e.decision, e.resolver) {
      assert (s.allows + multiset{k})[k] == s.allows[k] + 1;
    }
  }

  /** A DENIAL HOLDS until a later ALLOW of the same fingerprint: over any run in
      which the owner's ALLOW count for it does not grow and the state file stays,
      through revokes, re-grants and failing reads, no owner-granted artifact is minted
      for it; and no new question about it is recorded unless some authorization of it
      failed to read the denials. */
  lemma {:induction false} DenialHolds(policy: Policy, s: State, es: seq<Event>, k: ActionKey)
    requires Inv(s) && Barred(s.file, k) && FileStays(es)
    requires Run(policy, s, es).allows[k] == s.allows[k]
    ensures var t := Run(policy, s, es);
      && Barred(t.file, k) && t.ownerMints[k] == s.ownerMints[k]
      && ((forall e <- es :: !Overlooks(e, k)) ==> forall r :: Asks(t.file, r, k) ==> Asks(s.file, r, k))
    decreases |es|
  {
    if es != [] {
      var t := Apply(policy, s, es[0]);
      FileMoves(policy, s, es[0]);
      AllowsGrow(policy, t, es[1..]);
      assert s.allows[k] <= t.allows[k] <= Run(policy, t, es[1..]).allows[k];
      DeniedStep(policy, s, es[0], k);
      InvStep(policy, s, es[0]);
      DenialHolds(policy, t, es[1..], k);
      assert es[0] in es;
    }
  }

  /** THE EXCEPTION, exactly: an owner is asked again about an action already denied
      when the look at the denials fails and the other reads do not. */
  lemma AskedAgainExactly(policy: Policy, file: StateFile, p: Proposal, cap: Capability, draw: Draw)
    requires file.Saved? && p.Fingerprint() in file.state.denied && file.state.overrides !! file.state.denied
    requires Evaluate(policy, cap, file.state) == AskOwner
    ensures var out := Authorize(policy, file, p, cap, draw);
      && (out.reply.Pending? <==> draw.access.atPolicy && draw.access.atUse && !draw.access.atDenial && draw.access.atQuestion)
      && (out.reply.Pending? ==> Asks(out.file, draw.request, p.Fingerprint()))
      && !out.reply.Authorized?
  {
    assert Evaluate(policy, cap, EMPTY) == PolicyDeny;
  }

  lemma {:induction false} AllowsGrow(policy: Policy, s: State, es: seq<Event>)
    ensures s.allows <= Run(policy, s, es).allows
    decreases |es|
  {
    if es != [] {
      FileMoves(policy, s, es[0]);
      AllowsGrow(policy, Apply(policy, s, es[0]), es[1..]);
    }
  }

  /** A HARD DENIAL at any point of any run: an authorization of an action on such a
      resource leaves the whole system as it was. */
  lemma HardDenialChangesNothing(policy: Policy, s: State, e: Event)
    requires e.Authorizes? && Contained(policy.fold, policy.hardDenied, e.cap.resource)
    ensures Apply(policy, s, e) == s
  {
    HardDeniedIsRefused(policy, s.file, e.proposal, e.cap, e.draw);
    assert AfterAuthorize(s, e, AuthOutcome(s.file, Refused)) == s;
  }

  // ---------------------------------------------------------- instructions ---

  /** In every reachable state the owner's instructions have different rules. */
  lemma {:induction false} InstructionsAreDistinct(policy: Policy, s: State, es: seq<Event>)
    requires OneEach(OnDisk(s.file).instructions)
    ensures OneEach(OnDisk(Run(policy, s, es).file).instructions)
    decreases |es|
  {
    if es != [] {
      InstructionStep(policy, s, es[0]);
      InstructionsAreDistinct(policy, Apply(policy, s, es[0]), es[1..]);
    }
  }

  /** The events that touch an instruction. */
  predicate Touches(e: Event, i: Instruction) {
    e.FileRemoved? || (e.OwnerInstructs? && e.instruction.rule == i.rule) || (e.OwnerDropsRule? && e.id == i.id)
  }

  /** Events of other kinds leave the list alone. */
  lemma OtherEventsKeepInstructions(policy: Policy, s: State, e: Event)
    requires !e.OwnerInstructs? && !e.OwnerDropsRule? && !e.FileRemoved? && !e.FileCorrupts?
    ensures OnDisk(Apply(policy, s, e).file).instructions == OnDisk(s.file).instructions
    ensures Ruined(Apply(policy, s, e).file) == Ruined(s.file)
  {
    if e.Authorizes? { AuthorizeKeeps(policy, s.file, e.proposal, e.cap, e.draw); }
  }

  /** What one event does to the instructions. */
  lemma InstructionStep(policy: Policy, s: State, e: Event)
    ensures var was, now := OnDisk(s.file).instructions, OnDisk(Apply(policy, s, e).file).instructions;
      && (OneEach(was) ==> OneEach(now))
      && (Ruined(s.file) && !e.FileRemoved? ==> Ruined(Apply(policy, s, e).file))
      && (e.FileCorrupts? ==> Ruined(Apply(policy, s, e).file))
      && (!Ruined(s.file) && !e.FileCorrupts? ==> forall i <- was :: i in now || Touches(e, i))
  {
    if e.OwnerInstructs? {
      var at := InstructMeaning(OnDisk(s.file), e.instruction);
    } else if e.OwnerDropsRule? {
      var at := DropMeaning(OnDisk(s.file).instructions, e.id);
    } else if !e.FileRemoved? && !e.FileCorrupts? {
      OtherEventsKeepInstructions(policy, s, e);
    }
  }

  /** Nobody restates the rule, drops the instruction or removes the file. */
  predicate Undisturbed(i: Instruction, es: seq<Event>) {
    forall e <- es :: !Touches(e, i)
  }

  /** AN INSTRUCTION BINDS until it is restated, dropped, or the file removed: over
      any run, whatever is granted, whoever asks, an action on a resource it covers
      is never allowed by policy alone, only by the owner's own override. */
  lemma {:induction false} InstructionHolds(policy: Policy, s: State, es: seq<Event>, i: Instruction,
                                            p: Proposal, cap: Capability, draw: Draw)
    requires Ruined(s.file) || i in OnDisk(s.file).instructions
    requires Undisturbed(i, es) && ResourceMatches(policy.fold, i.resource, cap.resource)
    ensures var t := Run(policy, s, es);
      && (Ruined(t.file) || i in OnDisk(t.file).instructions)
      && var reply := Authorize(policy, t.file, p, cap, draw).reply;
         (reply.Authorized? ==> reply.action.grant.grantedBy.ByOwner? && p.Fingerprint() in StateOrEmpty(t.file).overrides)
    decreases |es|
  {
    if es == [] {
      MintFacts(policy, s.file, p, cap, draw);
    } else {
      assert !Touches(es[0], i) by { assert es[0] in es; }
      InstructionStep(policy, s, es[0]);
      InstructionHolds(policy, Apply(policy, s, es[0]), es[1..], i, p, cap, draw);
    }
  }
}
