/** The recovery loop inside the protocol: between its attempts, and in the middle of
    them, other workers, the owner, failures and crashes may act. */
module RealityRuns {
  import opened Common
  import opened Authority
  import opened Execution
  import opened Protocol
  import opened Guarantees
  import opened RealityLoop

  ghost predicate AttemptOf(m: Mission, p: Proposal) {
    exists attempt: int, t: Turn :: p == ToProposal(m.candidate, m.task, m.step, m.model, attempt, t)
  }

  /** Whatever worker `w` executes during `es`, it asked for as an attempt of `m`. */
  ghost predicate CallOf(m: Mission, w: Worker, es: seq<Event>) {
    forall e <- es :: !(e.Takes? && e.worker == w) && (e.Authorizes? && e.worker == w ==> AttemptOf(m, e.proposal))
  }

  function Ran(s: State, e: Event, w: Worker): nat {
    if e.Works? && e.worker == w && Advance(s.file, s.ledger, StageOf(s, w), e.env).ran then 1 else 0
  }

  /** What counts as a run of `w` is exactly what its work steps add to the runs of
      its action. */
  lemma RanExactly(policy: Policy, s: State, e: Event, w: Worker, k: ActionKey)
    ensures e.Works? && e.worker == w && !StageOf(s, w).Idle? && StageOf(s, w).action.Key() == k ==>
      Apply(policy, s, e).runs[k] == s.runs[k] + Ran(s, e, w)
    ensures !(e.Works? && e.worker == w) ==> Ran(s, e, w) == 0
  {
  }

  /** How often `w` itself invokes the tool during `es`. */
  function RunsBy(policy: Policy, s: State, es: seq<Event>, w: Worker): nat
    decreases |es|
  {
    if es == [] then 0 else Ran(s, es[0], w) + RunsBy(policy, Apply(policy, s, es[0]), es[1..], w)
  }

  /** The worker is between calls, or inside one for `k`. */
  predicate OnKey(s: State, w: Worker, k: ActionKey) { Free(s, w) || StageOf(s, w).action.Key() == k }

  /** The worker is idle, or on `k` without holding its claim. */
  predicate Retrying(s: State, w: Worker, k: ActionKey) {
    StageOf(s, w).Idle? || (StageOf(s, w).action.Key() == k && !Owns(StageOf(s, w)))
  }

  /** Outside its own work steps the worker keeps its stage, stops, or takes up an
      attempt, which has the mission's key whatever was drawn for it. */
  lemma OtherStep(policy: Policy, s: State, e: Event, m: Mission, w: Worker)
    requires CallOf(m, w, [e]) && !(e.Works? && e.worker == w)
    ensures var stage := StageOf(Apply(policy, s, e), w);
      stage == StageOf(s, w) || stage.Idle? || (stage.Check? && stage.action.Key() == m.Key())
  {
    assert e in [e];
    if e.Authorizes? { AuthorizedKey(policy, s, e, m, w); }
  }

  lemma AuthorizedKey(policy: Policy, s: State, e: Event, m: Mission, w: Worker)
    requires e.Authorizes? && (e.worker == w ==> AttemptOf(m, e.proposal))
    ensures var stage := StageOf(ApplyAuthorize(policy, s, e), w);
      stage == StageOf(s, w) || (stage.Check? && stage.action.Key() == m.Key())
  {
    BoundWhenMinted(policy, s.file, e.proposal, e.cap, e.draw);
  }

  /** One event: the worker stays on its key, and its run is one of all runs. */
  lemma CallStep(policy: Policy, s: State, e: Event, m: Mission, w: Worker)
    requires CallOf(m, w, [e]) && OnKey(s, w, m.Key())
    ensures var t := Apply(policy, s, e);
      OnKey(t, w, m.Key()) && s.runs[m.Key()] + Ran(s, e, w) <= t.runs[m.Key()]
  {
    if e.Works? {
      if !StageOf(s, e.worker).Idle? { AdvanceFrame(s.file, s.ledger, StageOf(s, e.worker), e.env); }
    } else {
      LedgerOutsideWork(policy, s, e);
    }
    if !(e.Works? && e.worker == w) { OtherStep(policy, s, e, m, w); }
  }

  lemma {:induction false} CallRunsAreCounted(policy: Policy, s: State, es: seq<Event>, m: Mission, w: Worker)
    requires CallOf(m, w, es) && OnKey(s, w, m.Key())
    ensures s.runs[m.Key()] + RunsBy(policy, s, es, w) <= Run(policy, s, es).runs[m.Key()]
    decreases |es|
  {
    if es != [] {
      assert CallOf(m, w, [es[0]]) && CallOf(m, w, es[1..]) by { assert es[0] in es; }
      CallStep(policy, s, es[0], m, w);
      CallRunsAreCounted(policy, Apply(policy, s, es[0]), es[1..], m, w);
    }
  }

  /** ONE RUN PER CALL IN ANY RUN: however the call's attempts are interleaved with
      the rest of the system, it invokes the tool at most once, and not at all when
      the tool had run for its action before, by whomever. */
  lemma OneRunInAnyRun(policy: Policy, before: seq<Event>, es: seq<Event>, m: Mission, w: Worker)
    requires CallOf(m, w, es) && OnKey(Run(policy, INIT, before), w, m.Key())
    ensures var s := Run(policy, INIT, before);
      RunsBy(policy, s, es, w) + s.runs[m.Key()] <= Run(policy, s, es).runs[m.Key()] <= 1
  {
    var s := Run(policy, INIT, before);
    CallRunsAreCounted(policy, s, es, m, w);
    RunConcat(policy, INIT, before, es);
    AtMostOnce(policy, before + es, m.Key());
  }

  /** On a claimed key a worker without the claim neither runs nor gets the claim. */
  lemma RetryStep(policy: Policy, s: State, e: Event, m: Mission, w: Worker)
    requires CallOf(m, w, [e]) && Retrying(s, w, m.Key()) && m.Key() in s.ledger.intents
    ensures var t := Apply(policy, s, e);
      Retrying(t, w, m.Key()) && m.Key() in t.ledger.intents && Ran(s, e, w) == 0
  {
    if e.Works? {
      if !StageOf(s, e.worker).Idle? { AdvanceFrame(s.file, s.ledger, StageOf(s, e.worker), e.env); }
    } else {
      LedgerOutsideWork(policy, s, e);
    }
    if !(e.Works? && e.worker == w) { OtherStep(policy, s, e, m, w); }
  }

  lemma {:induction false} RetriesKeepOff(policy: Policy, s: State, es: seq<Event>, m: Mission, w: Worker)
    requires CallOf(m, w, es) && Retrying(s, w, m.Key()) && m.Key() in s.ledger.intents
    ensures RunsBy(policy, s, es, w) == 0 && Retrying(Run(policy, s, es), w, m.Key())
    decreases |es|
  {
    if es != [] {
      assert CallOf(m, w, [es[0]]) && CallOf(m, w, es[1..]) by { assert es[0] in es; }
      RetryStep(policy, s, es[0], m, w);
      RetriesKeepOff(policy, Apply(policy, s, es[0]), es[1..], m, w);
    }
  }

  /** RETRIES ONLY REPLAY IN ANY RUN: once the action is claimed or recorded, a retry
      never invokes the tool again, whatever happens meanwhile, and any result it
      comes back with is the recorded one, marked as a duplicate. */
  lemma RetriesReplayInAnyRun(policy: Policy, before: seq<Event>, es: seq<Event>, m: Mission, w: Worker)
    requires CallOf(m, w, es) && Retrying(Run(policy, INIT, before), w, m.Key())
    requires Touched(Run(policy, INIT, before).ledger, m.Key())
    ensures var s := Run(policy, INIT, before);
      var t := Run(policy, s, es);
      && RunsBy(policy, s, es, w) == 0
      && (Answered(StageOf(t, w)) ==>
            m.Key() in t.ledger.results && StageOf(t, w).reply == Duplicate(MarkDuplicate(t.ledger.results[m.Key()])))
  {
    var s := Run(policy, INIT, before);
    InvRun(policy, INIT, before);
    InvRun(policy, s, es);
    assert KeyInv(s.ledger, s.runs, m.Key());
    RetriesKeepOff(policy, s, es, m, w);
    RepliesAreTruthful(Run(policy, s, es), w);
  }
}
