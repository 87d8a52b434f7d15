/** The bounded actor / monitor refinement loop and its two-stage monitor. */
module ActorMonitor {
  import opened Common

  // ---------------------------------------------------------------- data ---

  const MAX_ITEM_CHARS := 500
  const MAX_ARGUMENTS_JSON_CHARS := 4096

  /** `argumentsSize` is the length of the arguments as JSON, `None` when they are
      not serialisable; `safeId` is the pattern test on the id. */
  datatype Candidate = Candidate(
    id: string, safeId: bool, subgoal: Option<string>, executes: bool, tool: string, capability: string,
    effect: string, preconditions: seq<string>, argumentsSize: Option<nat>)

  datatype Stage = Structural | Semantic

  datatype Reason =
    | UnsafeId | DuplicateId | WrongSubgoal(theirs: Option<string>, ours: string) | NoToolOrCapability | NoEffect
    | BadPrecondition | UndeclaredCapability(name: string) | UnserialisableArguments | OversizedArguments
    | MalformedOutput(detail: string) | NoVerdict | ModelSays(text: string)

  datatype Judgement = Accept(note: Option<string>) | Reject(reason: Reason)

  datatype MonitorResult = MonitorResult(candidate: string, stage: Stage, judgement: Judgement, iteration: nat)

  datatype Verdict = Verdict(candidate: string, accepted: bool, reason: string)

  /** What the model-backed stage answers: a raised error, output that does not
      parse, with the complaint about it, or verdicts. */
  datatype ModelReply = ModelRaised | Malformed(detail: string) | Verdicts(verdicts: seq<Verdict>)

  datatype ActorReply = ActorRaised(reason: string) | Proposed(candidates: seq<Candidate>)

  // ------------------------------------------------------- structural stage ---

  predicate HasBad(preconditions: seq<string>) {
    preconditions != [] &&
    (Blank(preconditions[0]) || |preconditions[0]| > MAX_ITEM_CHARS || HasBad(preconditions[1..]))
  }

  /** One candidate against the deterministic rules; `None` accepts it. */
  function Violation(c: Candidate, subgoal: string, declared: set<string>, seen: set<string>): Option<Reason> {
    if !c.safeId then Some(UnsafeId)
    else if c.id in seen then Some(DuplicateId)
    else if c.subgoal != Some(subgoal) then Some(WrongSubgoal(c.subgoal, subgoal))
    else if c.executes && Blank(c.tool) && Blank(c.capability) then Some(NoToolOrCapability)
    else if Blank(c.effect) then Some(NoEffect)
    else if HasBad(c.preconditions) then Some(BadPrecondition)
    else if c.capability != "" && declared != {} && c.capability !in declared then Some(UndeclaredCapability(c.capability))
    else if c.argumentsSize.None? then Some(UnserialisableArguments)
    else if c.argumentsSize.value > MAX_ARGUMENTS_JSON_CHARS then Some(OversizedArguments)
    else None
  }

  /** The ids of the first `n` candidates. */
  function Ids(cs: seq<Candidate>, n: nat): set<string>
    requires n <= |cs|
  {
    if n == 0 then {} else Ids(cs, n - 1) + {cs[n - 1].id}
  }

  lemma {:induction false} IdsMeaning(cs: seq<Candidate>, n: nat, i: nat)
    requires i < n <= |cs|
    ensures cs[i].id in Ids(cs, n)
  {
    if i < n - 1 { IdsMeaning(cs, n - 1, i); }
  }

  /** A candidate passes the first stage, given the ones proposed before it. */
  predicate Sound(cs: seq<Candidate>, i: nat, subgoal: string, declared: set<string>)
    requires i < |cs|
  {
    Violation(cs[i], subgoal, declared, Ids(cs, i)).None?
  }

  predicate BadText(text: string) { Blank(text) || |text| > 500 }

  lemma {:induction false} HasBadMeaning(preconditions: seq<string>)
    ensures HasBad(preconditions) <==> exists p <- preconditions :: BadText(p)
  {
    if preconditions != [] {
      HasBadMeaning(preconditions[1..]);
      assert preconditions[0] in preconditions;
      assert forall p :: p in preconditions <==> p == preconditions[0] || p in preconditions[1..];
    }
  }

  /** THE FIRST STAGE, rule by rule: a candidate passes exactly when its id is safe and
      new, it serves the active subgoal, an executing one names a tool or a capability,
      its effect is stated, its preconditions are bounded, its capability is declared
      where any are, and its arguments serialise within their bound; and the reason of
      a rejection is the first of these it fails. */
  lemma ViolationExactly(c: Candidate, subgoal: string, declared: set<string>, seen: set<string>)
    ensures var v := Violation(c, subgoal, declared, seen);
      var foreign := c.subgoal != Some(subgoal);
      var handless := c.executes && Blank(c.tool) && Blank(c.capability);
      var unlimited := exists p <- c.preconditions :: BadText(p);
      var undeclared := c.capability != "" && declared != {} && c.capability !in declared;
      && (v.None? <==> c.safeId && c.id !in seen && !foreign && !handless && !Blank(c.effect) && !unlimited && !undeclared
                       && c.argumentsSize.Some? && c.argumentsSize.value <= 4096)
      && (v.Some? ==>
            var first := if !c.safeId then UnsafeId
                         else if c.id in seen then DuplicateId
                         else if foreign then WrongSubgoal(c.subgoal, subgoal)
                         else if handless then NoToolOrCapability
                         else if Blank(c.effect) then NoEffect
                         else if unlimited then BadPrecondition
                         else if undeclared then UndeclaredCapability(c.capability)
                         else if c.argumentsSize.None? then UnserialisableArguments
                         else OversizedArguments;
            v.value == first)
  {
    HasBadMeaning(c.preconditions);
  }

  lemma {:induction false} IdsExactly(cs: seq<Candidate>, n: nat, id: string)
    requires n <= |cs|
    ensures id in Ids(cs, n) <==> exists i :: 0 <= i < n && cs[i].id == id
  {
    if n > 0 { IdsExactly(cs, n - 1, id); }
  }

  // --------------------------------------------------------- semantic stage ---

  /** The verdict that counts for a candidate: the first that names it. */
  function FirstVerdict(vs: seq<Verdict>, id: string): Option<Verdict> {
    if vs == [] then None else if vs[0].candidate == id then Some(vs[0]) else FirstVerdict(vs[1..], id)
  }

  function ModelJudgement(v: Option<Verdict>): Judgement {
    if v.None? then Reject(NoVerdict)
    else if v.value.accepted then Accept(if v.value.reason == "" then None else Some(v.value.reason))
    else Reject(ModelSays(if v.value.reason == "" then "SEMANTIC: rejected" else "SEMANTIC: " + v.value.reason))
  }

  function Shown(repr: string -> string, text: Option<string>): string { if text.None? then "None" else repr(text.value) }

  /** What is wrong with the shape of a candidate. */
  function Fault(r: Reason): (words: string)
    ensures |words| < 51
  {
    match r
    case UnsafeId => "unsafe candidate id"
    case NoToolOrCapability => "EXECUTE candidate lacks a tool or capability"
    case NoEffect => "expected_effect must not be empty"
    case BadPrecondition => "preconditions must be non-empty and bounded"
    case UnserialisableArguments => "arguments are not JSON-serializable"
    case _ => "arguments exceed the size bound"
  }

  /** The reasons that quote nothing. */
  function FixedWords(r: Reason): (words: string)
    ensures |words| < 70
  {
    if r.DuplicateId? then "STRUCTURAL DUPLICATE: candidate id already proposed"
    else if r.NoVerdict? then "SEMANTIC MISSING: no verdict for candidate (fail closed)"
    else Between("STRUCTURAL SCHEMA: ", Fault(r), "")
  }

  /** Some text set between two others. */
  function Between(before: string, text: string, after: string): (r: string)
    ensures |r| == |before| + |text| + |after|
  {
    before + text + after
  }

  /** A reason in words; `repr` is Python's quoting of a string. */
  function Words(repr: string -> string, r: Reason): string {
    match r
    case WrongSubgoal(theirs, ours) =>
      Between("STRUCTURAL BINDING: candidate targets subgoal ", Shown(repr, theirs), Between(", not the active ", repr(ours), ""))
    case UndeclaredCapability(name) => Between("STRUCTURAL CAPABILITY: ", repr(name), " is not declared by the mission state")
    case MalformedOutput(detail) => Between("SEMANTIC MALFORMED: monitor output rejected (", detail, ")")
    case ModelSays(text) => text
    case _ => FixedWords(r)
  }

  /** What a reason may quote without growing too long. */
  predicate Fits(repr: string -> string, r: Reason) {
    match r
    case WrongSubgoal(theirs, ours) => |Shown(repr, theirs)| + |repr(ours)| <= 437
    case UndeclaredCapability(name) => |repr(name)| <= 440
    case MalformedOutput(detail) => |detail| <= 454
    case ModelSays(text) => |text| <= MAX_ITEM_CHARS
    case _ => true
  }

  /** These are exactly the reasons within the contract's bound. */
  lemma FitsExactly(repr: string -> string, r: Reason)
    ensures Fits(repr, r) <==> |Words(repr, r)| <= MAX_ITEM_CHARS
  {
  }

  /** A result whose texts break its own contract cannot be built. */
  predicate Buildable(repr: string -> string, id: string, j: Judgement) {
    && !Blank(id)
    && (j.Accept? && j.note.Some? ==> !Blank(j.note.value) && |j.note.value| <= MAX_ITEM_CHARS)
    && (j.Reject? ==> Fits(repr, j.reason))
  }

  /** What can be built, in words: a result names its candidate, and every text it
      carries is not blank and at most 500 characters long. */
  lemma BuildableExactly(repr: string -> string, id: string, j: Judgement)
    ensures j.Accept? ==> (Buildable(repr, id, j) <==> !Blank(id) && (j.note.None? || (!Blank(j.note.value) && |j.note.value| <= 500)))
    ensures j.Reject? ==> (Buildable(repr, id, j) <==> !Blank(id) && |Words(repr, j.reason)| <= 500)
  {
    if j.Reject? { FitsExactly(repr, j.reason); }
  }

  // ------------------------------------------------------------ both stages ---

  /** The chained monitor's surroundings; without a model only the first stage runs. */
  datatype Setting = Setting(
    subgoal: string, declared: set<string>, repr: string -> string, semantic: Option<(nat, seq<Candidate>) -> ModelReply>)

  /** What the first stage lets through of the first `n` candidates, in order. */
  function SoundUpTo(cs: seq<Candidate>, n: nat, subgoal: string, declared: set<string>): seq<Candidate>
    requires n <= |cs|
  {
    if n == 0 then []
    else SoundUpTo(cs, n - 1, subgoal, declared) + if Sound(cs, n - 1, subgoal, declared) then [cs[n - 1]] else []
  }

  function SoundOnes(cs: seq<Candidate>, subgoal: string, declared: set<string>): seq<Candidate> {
    SoundUpTo(cs, |cs|, subgoal, declared)
  }

  /** What the semantic stage makes of one candidate it was given. */
  function SemanticJudgement(reply: ModelReply, id: string): Judgement
    requires !reply.ModelRaised?
  {
    if reply.Malformed? then Reject(MalformedOutput(reply.detail)) else ModelJudgement(FirstVerdict(reply.verdicts, id))
  }

  /** The result of candidate `i`, given the model's reply (`None`: not asked). */
  function ResultAt(s: Setting, cs: seq<Candidate>, i: nat, iteration: nat, reply: Option<ModelReply>): MonitorResult
    requires i < |cs| && (reply.Some? ==> !reply.value.ModelRaised?)
  {
    var v := Violation(cs[i], s.subgoal, s.declared, Ids(cs, i));
    if v.Some? then MonitorResult(cs[i].id, Structural, Reject(v.value), iteration)
    else if reply.None? then MonitorResult(cs[i].id, Structural, Accept(None), iteration)
    else MonitorResult(cs[i].id, Semantic, SemanticJudgement(reply.value, cs[i].id), iteration)
  }

  function Judged(s: Setting, cs: seq<Candidate>, n: nat, iteration: nat, reply: Option<ModelReply>): (r: seq<MonitorResult>)
    requires n <= |cs| && (reply.Some? ==> !reply.value.ModelRaised?)
    ensures |r| == n
  {
    if n == 0 then [] else Judged(s, cs, n - 1, iteration, reply) + [ResultAt(s, cs, n - 1, iteration, reply)]
  }

  lemma {:induction false} JudgedAt(s: Setting, cs: seq<Candidate>, n: nat, iteration: nat, reply: Option<ModelReply>, i: nat)
    requires i < n <= |cs| && (reply.Some? ==> !reply.value.ModelRaised?)
    ensures Judged(s, cs, n, iteration, reply)[i] == ResultAt(s, cs, i, iteration, reply)
  {
    if i < n - 1 { JudgedAt(s, cs, n - 1, iteration, reply, i); }
  }

  /** The first stage can put into words what it makes of candidate `i`. */
  predicate CanSay(s: Setting, cs: seq<Candidate>, i: nat)
    requires i < |cs|
  {
    Buildable(s.repr, cs[i].id, ResultAt(s, cs, i, 0, None).judgement)
  }

  predicate SayableUpTo(s: Setting, cs: seq<Candidate>, n: nat)
    requires n <= |cs|
  {
    n == 0 || (SayableUpTo(s, cs, n - 1) && CanSay(s, cs, n - 1))
  }

  predicate Sayable(s: Setting, cs: seq<Candidate>) { SayableUpTo(s, cs, |cs|) }

  lemma {:induction false} OneSpoils(s: Setting, cs: seq<Candidate>, i: nat, n: nat)
    requires i < n <= |cs| && !CanSay(s, cs, i)
    ensures !SayableUpTo(s, cs, n)
  {
    if i < n - 1 { OneSpoils(s, cs, i, n - 1); }
  }

  predicate AllBuildable(repr: string -> string, cs: seq<Candidate>, reply: ModelReply)
    requires !reply.ModelRaised?
  {
    forall c <- cs :: Buildable(repr, c.id, SemanticJudgement(reply, c.id))
  }

  /** One evaluation by the chained monitor, `None` when it raises.  The model is
      asked only when it is configured and something is left to judge. */
  function Evaluate(s: Setting, cs: seq<Candidate>, iteration: nat): Option<seq<MonitorResult>> {
    var left := SoundOnes(cs, s.subgoal, s.declared);
    if !Sayable(s, cs) then None
    else if s.semantic.None? || left == [] then Some(Judged(s, cs, |cs|, iteration, None))
    else
      var reply := s.semantic.value(iteration, left);
      if reply.ModelRaised? || !AllBuildable(s.repr, left, reply) then None
      else Some(Judged(s, cs, |cs|, iteration, Some(reply)))
  }

  /** ONE VERDICT EACH: the results name the candidates one by one in proposal order,
      and a candidate is accepted exactly when it passes the deterministic stage
      and, where the model is configured, the first verdict that names it accepts
      it; silence, malformed output and unknown ids never accept. */
  lemma VerdictsMeaning(s: Setting, cs: seq<Candidate>, iteration: nat, i: nat)
    requires Evaluate(s, cs, iteration).Some? && i < |cs|
    ensures var rs := Evaluate(s, cs, iteration).value;
      && |rs| == |cs| && rs[i].candidate == cs[i].id && rs[i].iteration == iteration
      && (rs[i].judgement.Accept? <==>
            && Sound(cs, i, s.subgoal, s.declared)
            && (s.semantic.Some? ==>
                  var reply := s.semantic.value(iteration, SoundOnes(cs, s.subgoal, s.declared));
                  && reply.Verdicts? && FirstVerdict(reply.verdicts, cs[i].id).Some?
                  && FirstVerdict(reply.verdicts, cs[i].id).value.accepted))
  {
    var left := SoundOnes(cs, s.subgoal, s.declared);
    if Sound(cs, i, s.subgoal, s.declared) { SoundIsLeft(cs, |cs|, s.subgoal, s.declared, i); }
    if s.semantic.None? || left == [] {
      JudgedAt(s, cs, |cs|, iteration, None, i);
    } else {
      JudgedAt(s, cs, |cs|, iteration, Some(s.semantic.value(iteration, left)), i);
    }
  }

  lemma {:induction false} SoundIsLeft(cs: seq<Candidate>, n: nat, subgoal: string, declared: set<string>, i: nat)
    requires i < n <= |cs| && Sound(cs, i, subgoal, declared)
    ensures cs[i] in SoundUpTo(cs, n, subgoal, declared)
  {
    if i < n - 1 { SoundIsLeft(cs, n - 1, subgoal, declared, i); }
  }

  /** Two accepted candidates of one proposal never share an id. */
  lemma AcceptedIdsAreDistinct(s: Setting, cs: seq<Candidate>, iteration: nat, i: nat, j: nat)
    requires Evaluate(s, cs, iteration).Some? && i < j < |cs|
    requires var rs := Evaluate(s, cs, iteration).value; rs[i].judgement.Accept? && rs[j].judgement.Accept?
    ensures cs[i].id != cs[j].id
  {
    VerdictsMeaning(s, cs, iteration, j);
    IdsMeaning(cs, j, i);
  }

  /** The verdict that counts is the first that names the candidate. */
  lemma {:induction false} FirstVerdictMeaning(vs: seq<Verdict>, id: string)
    ensures FirstVerdict(vs, id).None? <==> forall i :: 0 <= i < |vs| ==> vs[i].candidate != id
    ensures FirstVerdict(vs, id).Some? ==> exists i :: 0 <= i < |vs| && vs[i] == FirstVerdict(vs, id).value && vs[i].candidate == id
                                             && forall j :: 0 <= j < i ==> vs[j].candidate != id
  {
    if vs != [] && vs[0].candidate != id {
      var rest := vs[1..];
      FirstVerdictMeaning(rest, id);
      assert forall j :: 0 <= j < |rest| ==> rest[j] == vs[j + 1];
      if FirstVerdict(rest, id).Some? {
        var i :| 0 <= i < |rest| && rest[i] == FirstVerdict(rest, id).value && rest[i].candidate == id && forall j :: 0 <= j < i ==> rest[j].candidate != id;
        assert vs[i + 1] == FirstVerdict(vs, id).value;
        forall j | 0 <= j < i + 1 ensures vs[j].candidate != id { if j > 0 { assert vs[j] == rest[j - 1]; } }
      }
    }
  }

  /** EVERY RESULT, in full: the first stage's rejection with its reason; with no model
      a bare acceptance; with one its judgement, silence and malformed output rejecting
      and a verdict carrying its own reason. */
  lemma ResultExactly(s: Setting, cs: seq<Candidate>, i: nat, iteration: nat, reply: Option<ModelReply>)
    requires i < |cs| && (reply.Some? ==> !reply.value.ModelRaised?)
    ensures var r := ResultAt(s, cs, i, iteration, reply);
      var v := Violation(cs[i], s.subgoal, s.declared, Ids(cs, i));
      && r.candidate == cs[i].id && r.iteration == iteration
      && (v.Some? ==> r.stage == Structural && r.judgement == Reject(v.value))
      && (v.None? && reply.None? ==> r.stage == Structural && r.judgement == Accept(None))
      && (v.None? && reply.Some? ==>
            && r.stage == Semantic
            && (reply.value.Malformed? ==> r.judgement == Reject(MalformedOutput(reply.value.detail)))
            && (reply.value.Verdicts? ==>
                  var first := FirstVerdict(reply.value.verdicts, cs[i].id);
                  && (first.None? ==> r.judgement == Reject(NoVerdict))
                  && (first.Some? && first.value.accepted ==>
                        r.judgement == Accept(if first.value.reason == "" then None else Some(first.value.reason)))
                  && (first.Some? && !first.value.accepted ==>
                        r.judgement == Reject(ModelSays(if first.value.reason == "" then "SEMANTIC: rejected" else "SEMANTIC: " + first.value.reason)))))
  {
  }

  /** THE CHAIN RAISES exactly when some structural result cannot be built, or the
      model is asked and raises, or some result of its stage cannot be built; it asks
      exactly when it is configured and something passed the first stage. */
  lemma RaisesExactly(s: Setting, cs: seq<Candidate>, iteration: nat)
    ensures var left := SoundOnes(cs, s.subgoal, s.declared);
      var asked := s.semantic.Some? && left != [];
      var reply := if asked then s.semantic.value(iteration, left) else ModelRaised;
      && (Evaluate(s, cs, iteration).None? <==>
            || (exists i :: 0 <= i < |cs| && !CanSay(s, cs, i))
            || (asked && (reply.ModelRaised? || exists c <- left :: !Buildable(s.repr, c.id, SemanticJudgement(reply, c.id)))))
      && (Evaluate(s, cs, iteration).Some? ==>
            Evaluate(s, cs, iteration).value == Judged(s, cs, |cs|, iteration, if asked then Some(reply) else None))
  {
    SayableExactly(s, cs, |cs|);
  }

  lemma {:induction false} SayableExactly(s: Setting, cs: seq<Candidate>, n: nat)
    requires n <= |cs|
    ensures SayableUpTo(s, cs, n) <==> forall i :: 0 <= i < n ==> CanSay(s, cs, i)
  {
    if n > 0 {
      SayableExactly(s, cs, n - 1);
      assert SayableUpTo(s, cs, n) <==> SayableUpTo(s, cs, n - 1) && CanSay(s, cs, n - 1);
    }
  }

  /** What passes the first stage is what the model is given, all of it. */
  lemma {:induction false} SoundOnesExactly(cs: seq<Candidate>, n: nat, subgoal: string, declared: set<string>, c: Candidate)
    requires n <= |cs|
    ensures c in SoundUpTo(cs, n, subgoal, declared) <==> exists i :: 0 <= i < n && cs[i] == c && Sound(cs, i, subgoal, declared)
  {
    if n > 0 { SoundOnesExactly(cs, n - 1, subgoal, declared, c); }
  }

  // ----------------------------------------------------------- the monitors ---

  method EvaluateOne(s: Setting, cs: seq<Candidate>, i: nat, seen: set<string>, iteration: nat) returns (result: MonitorResult)
    requires i < |cs| && seen == Ids(cs, i)
    ensures result == ResultAt(s, cs, i, iteration, None)
  {
    var violation := Violation(cs[i], s.subgoal, s.declared, seen);
    result := MonitorResult(cs[i].id, Structural, if violation.Some? then Reject(violation.value) else Accept(None), iteration);
  }

  /** The structural stage over a whole proposal; `None` when a result cannot be
      built. */
  method EvaluateStructural(s: Setting, cs: seq<Candidate>, iteration: nat) returns (results: Option<seq<MonitorResult>>)
    ensures results == if Sayable(s, cs) then Some(Judged(s, cs, |cs|, iteration, None)) else None
  {
    var seen: set<string> := {};
    var rs: seq<MonitorResult> := [];
    for i := 0 to |cs|
      invariant seen == Ids(cs, i) && rs == Judged(s, cs, i, iteration, None)
      invariant SayableUpTo(s, cs, i)
    {
      var result := EvaluateOne(s, cs, i, seen, iteration);
      if !Buildable(s.repr, cs[i].id, result.judgement) {
        OneSpoils(s, cs, i, |cs|);
        return None;
      }
      rs := rs + [result];
      seen := seen + {cs[i].id};
    }
    results := Some(rs);
  }

  lemma {:induction false} FirstVerdictAppend(vs: seq<Verdict>, v: Verdict, id: string)
    ensures FirstVerdict(vs + [v], id) ==
      if FirstVerdict(vs, id).Some? then FirstVerdict(vs, id) else if v.candidate == id then Some(v) else None
  {
    if vs == [] {
      assert vs + [v] == [v] && [v][1..] == [];
    } else {
      assert (vs + [v])[1..] == vs[1..] + [v];
      FirstVerdictAppend(vs[1..], v, id);
    }
  }

  /** The first verdict of every known candidate; unknown references are dropped. */
  method FirstVerdicts(vs: seq<Verdict>, known: set<string>) returns (byId: map<string, Verdict>)
    ensures forall id :: id in byId <==> id in known && FirstVerdict(vs, id).Some?
    ensures forall id :: id in byId ==> byId[id] == FirstVerdict(vs, id).value
  {
    byId := map[];
    for k := 0 to |vs|
      invariant forall id :: id in byId <==> id in known && FirstVerdict(vs[..k], id).Some?
      invariant forall id :: id in byId ==> byId[id] == FirstVerdict(vs[..k], id).value
    {
      assert vs[..k + 1] == vs[..k] + [vs[k]];
      forall id { FirstVerdictAppend(vs[..k], vs[k], id); }
      if vs[k].candidate in known && vs[k].candidate !in byId {
        byId := byId[vs[k].candidate := vs[k]];
      }
    }
    assert vs[..|vs|] == vs;
  }

  /** `_apply_output`, as the dictionary the chained monitor then builds of it. */
  method ApplyOutput(repr: string -> string, reply: ModelReply, cs: seq<Candidate>, iteration: nat) returns (byId: Option<map<string, MonitorResult>>)
    requires !reply.ModelRaised?
    ensures byId.Some? <==> AllBuildable(repr, cs, reply)
    ensures byId.Some? ==> forall c <- cs ::
      c.id in byId.value && byId.value[c.id] == MonitorResult(c.id, Semantic, SemanticJudgement(reply, c.id), iteration)
  {
    var verdicts: map<string, Verdict> := map[];
    if reply.Verdicts? {
      verdicts := FirstVerdicts(reply.verdicts, set c | c in cs :: c.id);
    }
    var results: map<string, MonitorResult> := map[];
    for i := 0 to |cs|
      invariant forall c <- cs[..i] :: Buildable(repr, c.id, SemanticJudgement(reply, c.id)) && c.id in results
      invariant forall id :: id in results ==> results[id] == MonitorResult(id, Semantic, SemanticJudgement(reply, id), iteration)
    {
      var c := cs[i];
      assert cs[..i + 1] == cs[..i] + [c];
      var j := if reply.Malformed? then Reject(MalformedOutput(reply.detail))
               else ModelJudgement(if c.id in verdicts then Some(verdicts[c.id]) else None);
      if !Buildable(repr, c.id, j) { return None; }
      results := results[c.id := MonitorResult(c.id, Semantic, j, iteration)];
    }
    assert cs[..|cs|] == cs;
    byId := Some(results);
  }

  lemma SurvivorStep(s: Setting, cs: seq<Candidate>, iteration: nat, i: nat)
    requires i < |cs|
    ensures Judged(s, cs, |cs|, iteration, None)[i].judgement.Accept? <==> Sound(cs, i, s.subgoal, s.declared)
  {
    JudgedAt(s, cs, |cs|, iteration, None, i);
  }

  /** What the structural pass lets through, by its own results. */
  method Survivors(s: Setting, cs: seq<Candidate>, iteration: nat, results: seq<MonitorResult>) returns (left: seq<Candidate>)
    requires results == Judged(s, cs, |cs|, iteration, None)
    ensures left == SoundOnes(cs, s.subgoal, s.declared)
  {
    left := [];
    for i := 0 to |cs|
      invariant left == SoundUpTo(cs, i, s.subgoal, s.declared)
    {
      SurvivorStep(s, cs, iteration, i);
      if results[i].judgement.Accept? { left := left + [cs[i]]; }
    }
  }

  /** Both stages, merged in proposal order. */
  method EvaluateChained(s: Setting, cs: seq<Candidate>, iteration: nat) returns (results: Option<seq<MonitorResult>>)
    ensures results == Evaluate(s, cs, iteration)
  {
    var structural := EvaluateStructural(s, cs, iteration);
    if structural.None? { return None; }
    var left := Survivors(s, cs, iteration, structural.value);
    if s.semantic.None? || left == [] { return structural; }
    var reply := s.semantic.value(iteration, left);
    if reply.ModelRaised? { return None; }
    var byId := ApplyOutput(s.repr, reply, left, iteration);
    if byId.None? { return None; }
    var merged := Merge(s, cs, iteration, reply, structural.value, byId.value);
    results := Some(merged);
  }

  method Merge(s: Setting, cs: seq<Candidate>, iteration: nat, reply: ModelReply,
               structural: seq<MonitorResult>, byId: map<string, MonitorResult>) returns (merged: seq<MonitorResult>)
    requires !reply.ModelRaised? && structural == Judged(s, cs, |cs|, iteration, None)
    requires forall c <- SoundOnes(cs, s.subgoal, s.declared) ::
      c.id in byId && byId[c.id] == MonitorResult(c.id, Semantic, SemanticJudgement(reply, c.id), iteration)
    ensures merged == Judged(s, cs, |cs|, iteration, Some(reply))
  {
    merged := [];
    for i := 0 to |cs|
      invariant merged == Judged(s, cs, i, iteration, Some(reply))
    {
      JudgedAt(s, cs, |cs|, iteration, None, i);
      if structural[i].judgement.Reject? {
        merged := merged + [structural[i]];
      } else {
        SoundIsLeft(cs, |cs|, s.subgoal, s.declared, i);
        merged := merged + [byId[cs[i].id]];
      }
    }
  }

  // ------------------------------------------------------------- the rounds ---

  /** The loop's surroundings.  Actor and monitor are called once a round, so their
      answers may depend on the round, whatever their inner state; a monitor that
      answers `None` has raised. */
  datatype LoopSetting = LoopSetting(
    actor: (seq<MonitorResult>, nat) -> ActorReply, monitor: (seq<Candidate>, nat) -> Option<seq<MonitorResult>>,
    maxIterations: nat, maxCandidates: nat)

  function Chained(m: Setting): (seq<Candidate>, nat) -> Option<seq<MonitorResult>> {
    (cs: seq<Candidate>, k: nat) => Evaluate(m, cs, k)
  }

  /** One pass of the loop: the actor failed, the monitor raised, or every kept
      candidate was judged. */
  datatype Round = ActorFailed(reason: string) | MonitorRaised | Done(candidates: seq<Candidate>, results: seq<MonitorResult>)

  function Kept(cs: seq<Candidate>, max: nat): seq<Candidate> { if |cs| <= max then cs else cs[..max] }

  function Rejections(rs: seq<MonitorResult>): seq<MonitorResult> {
    if rs == [] then [] else (if rs[0].judgement.Reject? then [rs[0]] else []) + Rejections(rs[1..])
  }

  function Accepted(rs: seq<MonitorResult>): seq<MonitorResult> {
    if rs == [] then [] else (if rs[0].judgement.Accept? then [rs[0]] else []) + Accepted(rs[1..])
  }

  function RoundWith(s: LoopSetting, feedback: seq<MonitorResult>, k: nat): Round {
    match s.actor(feedback, k)
    case ActorRaised(reason) => ActorFailed(reason)
    case Proposed(cs) =>
      match s.monitor(Kept(cs, s.maxCandidates), k)
      case None => MonitorRaised
      case Some(rs) => Done(Kept(cs, s.maxCandidates), rs)
  }

  /** What the actor is told before round `k`: the last round's rejections. */
  function Feedback(s: LoopSetting, k: nat): seq<MonitorResult>
    decreases k, 0
  {
    if k <= 1 then [] else match RoundAt(s, k - 1) case Done(_, rs) => Rejections(rs) case _ => []
  }

  function RoundAt(s: LoopSetting, k: nat): Round
    decreases k, 1
  {
    RoundWith(s, Feedback(s, k), k)
  }

  /** The rounds of a run, as one function. */
  function Rounds(s: LoopSetting): nat -> Round { (k: nat) => RoundAt(s, k) }

  /** Judged, and nothing accepted. */
  predicate Fruitless(r: Round) { r.Done? && Accepted(r.results) == [] }

  predicate FruitlessUpTo(rounds: nat -> Round, n: nat) {
    n == 0 || (FruitlessUpTo(rounds, n - 1) && Fruitless(rounds(n)))
  }

  function ResultsUpTo(rounds: nat -> Round, n: nat): seq<MonitorResult> {
    if n == 0 then [] else ResultsUpTo(rounds, n - 1) + match rounds(n) case Done(_, rs) => rs case _ => []
  }

  function CandidatesUpTo(rounds: nat -> Round, n: nat): seq<Candidate> {
    if n == 0 then [] else CandidatesUpTo(rounds, n - 1) + match rounds(n) case Done(cs, _) => cs case _ => []
  }

  function CandidateIds(rs: seq<MonitorResult>): seq<string> {
    if rs == [] then [] else [rs[0].candidate] + CandidateIds(rs[1..])
  }

  datatype FailReason = BudgetExhausted | ActorError(text: string)

  datatype Outcome =
    | PlanAccepted(iterations: nat, accepted: seq<string>, results: seq<MonitorResult>)
    | PlanFailed(iterations: nat, reason: FailReason, results: seq<MonitorResult>)
    | RunRaised

  /** The run from round `k` on.  A monitor's error is not caught, and an actor's
      blank message makes the failure record itself invalid: both raise. */
  function LoopFrom(rounds: nat -> Round, k: nat, max: nat): Outcome
    requires k >= 1
    decreases max + 1 - k
  {
    if k > max then PlanFailed(max, BudgetExhausted, ResultsUpTo(rounds, max))
    else match rounds(k)
      case MonitorRaised => RunRaised
      case ActorFailed(reason) => if Blank(reason) then RunRaised else PlanFailed(k, ActorError(reason), ResultsUpTo(rounds, k - 1))
      case Done(_, rs) =>
        if Accepted(rs) != [] then PlanAccepted(k, CandidateIds(Accepted(rs)), ResultsUpTo(rounds, k))
        else LoopFrom(rounds, k + 1, max)
  }

  function Loop(s: LoopSetting): Outcome { LoopFrom(Rounds(s), 1, s.maxIterations) }

  lemma {:induction false} AcceptedMeaning(rs: seq<MonitorResult>)
    ensures forall r :: r in Accepted(rs) <==> r in rs && r.judgement.Accept?
    ensures Accepted(rs) == [] <==> forall r <- rs :: r.judgement.Reject?
  {
    if rs != [] {
      AcceptedMeaning(rs[1..]);
      assert forall r :: r in rs <==> r == rs[0] || r in rs[1..];
    }
  }

  lemma {:induction false} FruitlessMeansRejected(rounds: nat -> Round, n: nat)
    requires FruitlessUpTo(rounds, n)
    ensures forall r <- ResultsUpTo(rounds, n) :: r.judgement.Reject?
  {
    if n > 0 {
      FruitlessMeansRejected(rounds, n - 1);
      AcceptedMeaning(rounds(n).results);
    }
  }

  /** Accepted by its last round, after only fruitless ones. */
  predicate AcceptedAt(rounds: nat -> Round, max: nat, out: Outcome) {
    && out.PlanAccepted? && 1 <= out.iterations <= max && FruitlessUpTo(rounds, out.iterations - 1)
    && rounds(out.iterations).Done? && out.accepted == CandidateIds(Accepted(rounds(out.iterations).results))
    && out.accepted != [] && out.results == ResultsUpTo(rounds, out.iterations)
  }

  lemma {:induction false} AcceptingRun(rounds: nat -> Round, k: nat, max: nat)
    requires k >= 1 && FruitlessUpTo(rounds, k - 1) && LoopFrom(rounds, k, max).PlanAccepted?
    ensures AcceptedAt(rounds, max, LoopFrom(rounds, k, max))
    decreases max + 1 - k
  {
    if Fruitless(rounds(k)) {
      assert LoopFrom(rounds, k, max) == LoopFrom(rounds, k + 1, max);
      AcceptingRun(rounds, k + 1, max);
    } else {
      AcceptsHere(rounds, k, max);
    }
  }

  /** A run that accepts, from a round that is not fruitless, accepts right there. */
  lemma AcceptsHere(rounds: nat -> Round, k: nat, max: nat)
    requires k >= 1 && FruitlessUpTo(rounds, k - 1) && LoopFrom(rounds, k, max).PlanAccepted? && !Fruitless(rounds(k))
    ensures AcceptedAt(rounds, max, LoopFrom(rounds, k, max)) && LoopFrom(rounds, k, max).iterations == k
  {
  }

  lemma {:induction false} FailingRun(rounds: nat -> Round, k: nat, max: nat)
    requires 1 <= k <= max + 1 && FruitlessUpTo(rounds, k - 1) && LoopFrom(rounds, k, max).PlanFailed?
    ensures var out := LoopFrom(rounds, k, max);
      && out.iterations <= max && (forall r <- out.results :: r.judgement.Reject?)
      && ((out.iterations == max && FruitlessUpTo(rounds, max) && out.reason == BudgetExhausted)
          || (out.iterations >= 1 && FruitlessUpTo(rounds, out.iterations - 1) && out.reason.ActorError?
              && rounds(out.iterations) == ActorFailed(out.reason.text)))
    decreases max + 1 - k
  {
    FruitlessMeansRejected(rounds, k - 1);
    if k <= max && Fruitless(rounds(k)) { FailingRun(rounds, k + 1, max); }
  }

  lemma {:induction false} ReachesAcceptance(rounds: nat -> Round, k: nat, n: nat, max: nat)
    requires 1 <= k <= n <= max && FruitlessUpTo(rounds, n - 1)
    requires rounds(n).Done? && Accepted(rounds(n).results) != []
    ensures LoopFrom(rounds, k, max) == PlanAccepted(n, CandidateIds(Accepted(rounds(n).results)), ResultsUpTo(rounds, n))
    decreases n - k
  {
    if k < n {
      FruitlessAt(rounds, n - 1, k);
      ReachesAcceptance(rounds, k + 1, n, max);
    }
  }

  lemma {:induction false} FruitlessAt(rounds: nat -> Round, n: nat, m: nat)
    requires FruitlessUpTo(rounds, n) && 1 <= m <= n
    ensures Fruitless(rounds(m))
  {
    if m < n { FruitlessAt(rounds, n - 1, m); }
  }

  /** STOPS AT THE FIRST ACCEPTANCE, for any actor and any monitor (`Rounds` being
      one instance): a run accepts exactly when some round within the budget accepts
      after only fruitless ones, it stops right there, and a failed run carries
      nothing but rejections. */
  lemma LoopMeaning(rounds: nat -> Round, max: nat, n: nat)
    ensures var out := LoopFrom(rounds, 1, max);
      && (out.PlanAccepted? && out.iterations == n <==>
            1 <= n <= max && FruitlessUpTo(rounds, n - 1) && rounds(n).Done? && Accepted(rounds(n).results) != [])
      && (out.PlanAccepted? ==> out.accepted != [] && out.results == ResultsUpTo(rounds, out.iterations))
      && (out.PlanFailed? ==> out.iterations <= max && forall r <- out.results :: r.judgement.Reject?)
  {
    var out := LoopFrom(rounds, 1, max);
    if out.PlanAccepted? { AcceptingRun(rounds, 1, max); }
    if out.PlanFailed? { FailingRun(rounds, 1, max); }
    if 1 <= n <= max && FruitlessUpTo(rounds, n - 1) && rounds(n).Done? && Accepted(rounds(n).results) != [] {
      ReachesAcceptance(rounds, 1, n, max);
    }
  }

  lemma {:induction false} FruitlessRoundsPass(rounds: nat -> Round, k: nat, n: nat, max: nat)
    requires 1 <= k <= n <= max + 1 && FruitlessUpTo(rounds, n - 1)
    ensures LoopFrom(rounds, k, max) == LoopFrom(rounds, n, max)
    decreases n - k
  {
    if k < n {
      FruitlessAt(rounds, n - 1, k);
      FruitlessRoundsPass(rounds, k + 1, n, max);
    }
  }

  /** HOW A RUN ENDS, exactly, after fruitless rounds only: with the first round that
      accepts; raising with a monitor that raised, or an actor that failed without a
      word; failing with an actor's own reason, or when the budget of rounds is spent;
      and with every verdict up to there. */
  lemma OutcomesExactly(s: LoopSetting, n: nat)
    requires 1 <= n <= s.maxIterations + 1 && FruitlessUpTo(Rounds(s), n - 1)
    ensures var out := Loop(s);
      if n > s.maxIterations then out == PlanFailed(s.maxIterations, BudgetExhausted, ResultsUpTo(Rounds(s), s.maxIterations))
      else match RoundAt(s, n)
        case MonitorRaised => out == RunRaised
        case ActorFailed(reason) =>
          (Blank(reason) ==> out == RunRaised)
          && (!Blank(reason) ==> out == PlanFailed(n, ActorError(reason), ResultsUpTo(Rounds(s), n - 1)))
        case Done(_, rs) =>
          (exists r <- rs :: r.judgement.Accept?) ==> out == PlanAccepted(n, CandidateIds(Accepted(rs)), ResultsUpTo(Rounds(s), n))
  {
    FruitlessRoundsPass(Rounds(s), 1, n, s.maxIterations);
    if n <= s.maxIterations && RoundAt(s, n).Done? { AcceptedMeaning(RoundAt(s, n).results); }
  }

  lemma {:induction false} RejectionsMeaning(rs: seq<MonitorResult>)
    ensures forall r :: r in Rejections(rs) <==> r in rs && r.judgement.Reject?
  {
    if rs != [] {
      RejectionsMeaning(rs[1..]);
      assert forall r :: r in rs <==> r == rs[0] || r in rs[1..];
    }
  }

  /** ONE ROUND: the actor is told the last round's rejections and nothing else, and
      the monitor judges at most the configured number of what it proposes. */
  lemma RoundExactly(s: LoopSetting, k: nat)
    ensures k <= 1 ==> Feedback(s, k) == []
    ensures k > 1 && RoundAt(s, k - 1).Done? ==>
      forall r :: r in Feedback(s, k) <==> r in RoundAt(s, k - 1).results && r.judgement.Reject?
    ensures match s.actor(Feedback(s, k), k)
      case ActorRaised(reason) => RoundAt(s, k) == ActorFailed(reason)
      case Proposed(cs) =>
        var kept := if |cs| <= s.maxCandidates then cs else cs[..s.maxCandidates];
        RoundAt(s, k) == match s.monitor(kept, k) case None => MonitorRaised case Some(rs) => Done(kept, rs)
  {
    if k > 1 && RoundAt(s, k - 1).Done? { RejectionsMeaning(RoundAt(s, k - 1).results); }
  }

  /** BOTH STAGES, EVERY ROUND: under the chained monitor each judged round has one
      verdict per kept candidate, in proposal order, and accepting one takes the
      deterministic stage and, where it is configured, the model. */
  lemma RoundVerdicts(s: LoopSetting, m: Setting, k: nat, i: nat)
    requires s.monitor == Chained(m) && RoundAt(s, k).Done? && i < |RoundAt(s, k).candidates|
    ensures var r := RoundAt(s, k);
      var c := r.candidates[i];
      && |r.results| == |r.candidates| <= s.maxCandidates && r.results[i].candidate == c.id && r.results[i].iteration == k
      && (r.results[i].judgement.Accept? ==>
            && Sound(r.candidates, i, m.subgoal, m.declared)
            && (m.semantic.Some? ==>
                  var reply := m.semantic.value(k, SoundOnes(r.candidates, m.subgoal, m.declared));
                  reply.Verdicts? && FirstVerdict(reply.verdicts, c.id).Some? && FirstVerdict(reply.verdicts, c.id).value.accepted))
  {
    var cs := RoundAt(s, k).candidates;
    assert s.monitor(cs, k) == Evaluate(m, cs, k);
    VerdictsMeaning(m, cs, k, i);
  }

  // -------------------------------------------------------------- the loop ---

  datatype EventKind = CandidatesGenerated | MonitorEvaluated | CandidateAccepted | CandidateRejected | ActorRefinement | PlanningFailed

  datatype Event = Event(id: string, kind: EventKind, parent: Option<string>)

  datatype BrainState = BrainState(
    goal: string, candidates: seq<Candidate>, results: seq<MonitorResult>, decisions: seq<string>,
    iterations: nat, history: seq<string>)

  function WithPlanning(st: BrainState, cs: seq<Candidate>, rs: seq<MonitorResult>, decisions: seq<string>, n: nat): BrainState {
    st.(candidates := st.candidates + cs, results := st.results + rs, decisions := st.decisions + decisions,
        iterations := st.iterations + n)
  }

  function ParentAt(events: seq<Event>, i: nat, base: nat, parent: Option<string>): Option<string>
    requires base <= i <= |events|
  {
    if i == base then parent else Some(events[i - 1].id)
  }

  /** From `base` on the events form one unbroken parent chain that starts below
      `parent`, the history lists exactly their ids, and `last` names the newest. */
  ghost predicate Linked(events: seq<Event>, base: nat, parent: Option<string>, before: seq<string>, history: seq<string>, last: Option<string>) {
    && base <= |events| && |history| == |before| + |events| - base && before <= history
    && (forall i :: base <= i < |events| ==>
          && history[|before| + (i - base)] == events[i].id
          && events[i].parent == ParentAt(events, i, base, parent))
    && last == ParentAt(events, |events|, base, parent)
  }

  lemma LinkedGrows(events: seq<Event>, base: nat, parent: Option<string>, before: seq<string>, history: seq<string>, last: Option<string>, e: Event)
    requires Linked(events, base, parent, before, history, last) && e.parent == last
    ensures Linked(events + [e], base, parent, before, history + [e.id], Some(e.id))
  {
    var es, h := events + [e], history + [e.id];
    forall i | base <= i < |es|
      ensures h[|before| + (i - base)] == es[i].id && es[i].parent == ParentAt(es, i, base, parent)
    {
      if i < |events| {
        assert history[|before| + (i - base)] == events[i].id;
        assert events[i].parent == ParentAt(events, i, base, parent);
      }
    }
  }

  /** The events of one judged proposal, verdict by verdict. */
  function VerdictKinds(rs: seq<MonitorResult>, n: nat): seq<EventKind>
    requires n <= |rs|
  {
    if n == 0 then []
    else VerdictKinds(rs, n - 1) + [if rs[n - 1].judgement.Accept? then CandidateAccepted else CandidateRejected]
  }

  function RoundKinds(r: Round): seq<EventKind> {
    match r
    case ActorFailed(_) => []
    case MonitorRaised => [CandidatesGenerated]
    case Done(_, rs) => [CandidatesGenerated] + [MonitorEvaluated] + VerdictKinds(rs, |rs|)
  }

  /** ... followed by a refinement event when it was fruitless and another follows. */
  function TurnKinds(r: Round, k: nat, max: nat): seq<EventKind> {
    if Fruitless(r) && k < max then RoundKinds(r) + [ActorRefinement] else RoundKinds(r)
  }

  lemma {:induction false} VerdictKindsMeaning(rs: seq<MonitorResult>, n: nat)
    requires n <= |rs|
    ensures |VerdictKinds(rs, n)| == n
    ensures forall i :: 0 <= i < n ==> VerdictKinds(rs, n)[i] == if rs[i].judgement.Accept? then CandidateAccepted else CandidateRejected
  {
    if n > 0 { VerdictKindsMeaning(rs, n - 1); }
  }

  /** THE EVENTS OF A ROUND: the proposal, the evaluation, one for each verdict in
      order, and a refinement exactly when nothing was accepted and a round is left. */
  lemma TurnKindsExactly(r: Round, k: nat, max: nat)
    ensures var kinds := TurnKinds(r, k, max);
      match r
      case ActorFailed(_) => kinds == []
      case MonitorRaised => kinds == [CandidatesGenerated]
      case Done(_, rs) =>
        var refined := (forall result <- rs :: result.judgement.Reject?) && k < max;
        kinds == [CandidatesGenerated, MonitorEvaluated] + VerdictKinds(rs, |rs|) + if refined then [ActorRefinement] else []
  {
    if r.Done? {
      AcceptedMeaning(r.results);
      assert [CandidatesGenerated] + [MonitorEvaluated] == [CandidatesGenerated, MonitorEvaluated];
      assert RoundKinds(r) + [] == RoundKinds(r);
    }
  }

  /** What the brain state keeps of a run is added to what it held. */
  lemma PlanningAdds(st: BrainState, cs: seq<Candidate>, rs: seq<MonitorResult>, decisions: seq<string>, n: nat)
    ensures WithPlanning(st, cs, rs, decisions, n) ==
      BrainState(st.goal, st.candidates + cs, st.results + rs, st.decisions + decisions, st.iterations + n, st.history)
  {
  }

  /** The trace of the first `n` rounds. */
  function KindsUpTo(rounds: nat -> Round, n: nat, max: nat): seq<EventKind> {
    if n == 0 then [] else KindsUpTo(rounds, n - 1, max) + TurnKinds(rounds(n), n, max)
  }

  /** What one turn adds; a failed actor adds nothing. */
  lemma TurnAdds(rounds: nat -> Round, k: nat, max: nat)
    requires k >= 1
    ensures KindsUpTo(rounds, k, max) == KindsUpTo(rounds, k - 1, max) + TurnKinds(rounds(k), k, max)
    ensures rounds(k).ActorFailed? ==>
      CandidatesUpTo(rounds, k) == CandidatesUpTo(rounds, k - 1) && ResultsUpTo(rounds, k) == ResultsUpTo(rounds, k - 1)
    ensures rounds(k).Done? ==> CandidatesUpTo(rounds, k) == CandidatesUpTo(rounds, k - 1) + rounds(k).candidates
    ensures rounds(k).Done? ==> ResultsUpTo(rounds, k) == ResultsUpTo(rounds, k - 1) + rounds(k).results
  {
    assert CandidatesUpTo(rounds, k - 1) + [] == CandidatesUpTo(rounds, k - 1);
    assert ResultsUpTo(rounds, k - 1) + [] == ResultsUpTo(rounds, k - 1);
  }

  /** The kinds of the events from `base` on. */
  function Kinds(events: seq<Event>, base: nat): seq<EventKind> {
    if |events| <= base then [] else Kinds(events[..|events| - 1], base) + [events[|events| - 1].kind]
  }

  lemma KindsGrow(events: seq<Event>, base: nat, e: Event)
    requires base <= |events|
    ensures Kinds(events + [e], base) == Kinds(events, base) + [e.kind]
  {
    assert (events + [e])[..|events|] == events;
  }

  lemma Joined(a: seq<EventKind>, b: seq<EventKind>, c: seq<EventKind>)
    ensures (a + b) + c == a + (b + c)
  {
  }

  /** How the rounds end, before the outcome is recorded. */
  datatype Ending = Found(k: nat, accepted: seq<string>) | Lost(k: nat, reason: FailReason) | Broken

  class ActorMonitorLoop {
    const setting: LoopSetting
    const recordsDecisions: bool
    const eventId: nat -> string
    var events: seq<Event>

    constructor (setting: LoopSetting, recordsDecisions: bool, eventId: nat -> string)
      ensures this.setting == setting && this.recordsDecisions == recordsDecisions && events == []
    {
      this.setting, this.recordsDecisions, this.eventId := setting, recordsDecisions, eventId;
      events := [];
    }

    /** Mints an event below `last` and appends it to the state's history. */
    method Mint(st: BrainState, kind: EventKind, last: Option<string>, ghost base: nat, ghost parent: Option<string>, ghost before: seq<string>)
      returns (next: BrainState, id: Option<string>)
      requires Linked(events, base, parent, before, st.history, last)
      modifies this
      ensures Linked(events, base, parent, before, next.history, id)
      ensures next == st.(history := next.history) && id.Some?
      ensures Kinds(events, base) == Kinds(old(events), base) + [kind]
    {
      var e := Event(eventId(|events|), kind, last);
      LinkedGrows(events, base, parent, before, st.history, last, e);
      KindsGrow(events, base, e);
      events := events + [e];
      next, id := st.(history := st.history + [e.id]), Some(e.id);
    }

    /** One event per verdict, in order. */
    method MintVerdicts(st: BrainState, rs: seq<MonitorResult>, last: Option<string>, ghost base: nat, ghost parent: Option<string>, ghost before: seq<string>)
      returns (next: BrainState, id: Option<string>)
      requires Linked(events, base, parent, before, st.history, last)
      modifies this
      ensures Linked(events, base, parent, before, next.history, id) && next == st.(history := next.history)
      ensures Kinds(events, base) == Kinds(old(events), base) + VerdictKinds(rs, |rs|)
    {
      next, id := st, last;
      for i := 0 to |rs|
        invariant Linked(events, base, parent, before, next.history, id) && next == st.(history := next.history)
        invariant Kinds(events, base) == Kinds(old(events), base) + VerdictKinds(rs, i)
      {
        next, id := Mint(next, if rs[i].judgement.Accept? then CandidateAccepted else CandidateRejected, id, base, parent, before);
        Joined(Kinds(old(events), base), VerdictKinds(rs, i), [if rs[i].judgement.Accept? then CandidateAccepted else CandidateRejected]);
      }
    }

    /** Records a failure whose reason the record accepts. */
    method Fail(st: BrainState, reason: FailReason, n: nat, cs: seq<Candidate>, rs: seq<MonitorResult>, last: Option<string>,
                ghost base: nat, ghost parent: Option<string>, ghost before: seq<string>)
      returns (next: BrainState, out: Outcome, ghost id: Option<string>)
      requires Linked(events, base, parent, before, st.history, last)
      modifies this
      ensures out == PlanFailed(n, reason, rs)
      ensures Linked(events, base, parent, before, next.history, id)
      ensures next == WithPlanning(st, cs, rs, [], n).(history := next.history)
      ensures Kinds(events, base) == Kinds(old(events), base) + [PlanningFailed]
    {
      var e;
      next, e := Mint(st, PlanningFailed, last, base, parent, before);
      next := WithPlanning(next, cs, rs, [], n);
      out, id := PlanFailed(n, reason, rs), e;
    }

    /** One round: propose, keep at most `maxCandidates`, judge, and mint the events. */
    method PlayRound(st: BrainState, feedback: seq<MonitorResult>, k: nat, last: Option<string>,
                     ghost base: nat, ghost parent: Option<string>, ghost before: seq<string>)
      returns (next: BrainState, id: Option<string>, round: Round)
      requires Linked(events, base, parent, before, st.history, last)
      modifies this
      ensures round == RoundWith(setting, feedback, k)
      ensures Linked(events, base, parent, before, next.history, id) && next == st.(history := next.history)
      ensures Kinds(events, base) == Kinds(old(events), base) + RoundKinds(round)
    {
      next, id := st, last;
      var reply := setting.actor(feedback, k);
      if reply.ActorRaised? { return st, last, ActorFailed(reply.reason); }
      var cs := if |reply.candidates| <= setting.maxCandidates then reply.candidates else reply.candidates[..setting.maxCandidates];
      next, id := Mint(next, CandidatesGenerated, id, base, parent, before);
      var verdicts := setting.monitor(cs, k);
      if verdicts.None? { return next, id, MonitorRaised; }
      next, id := Mint(next, MonitorEvaluated, id, base, parent, before);
      next, id := MintVerdicts(next, verdicts.value, id, base, parent, before);
      Joined(Kinds(old(events), base), [CandidatesGenerated], [MonitorEvaluated]);
      Joined(Kinds(old(events), base), [CandidatesGenerated] + [MonitorEvaluated], VerdictKinds(verdicts.value, |verdicts.value|));
      round := Done(cs, verdicts.value);
    }

    /** The whole run: its outcome is what the rounds decide, the state records every
        candidate and verdict of the rounds that were judged, and the events minted
        are exactly the rounds' own, in one unbroken chain below the caller's event. */
    method Run(initial: BrainState, subgoalGoal: string, parent: Option<string>) returns (st: BrainState, out: Outcome)
      modifies this
      ensures out == if subgoalGoal != initial.goal then RunRaised else Loop(setting)
      ensures out.PlanAccepted? ==>
        && st == WithPlanning(initial, CandidatesUpTo(Rounds(setting), out.iterations), out.results,
                              if recordsDecisions then out.accepted else [], out.iterations).(history := st.history)
        && InChain(events, |old(events)|, parent, initial.history, st.history)
        && Kinds(events, |old(events)|) == KindsUpTo(Rounds(setting), out.iterations, setting.maxIterations)
      ensures out.PlanFailed? ==>
        && st == WithPlanning(initial, CandidatesUpTo(Rounds(setting), out.iterations), out.results, [], out.iterations).(history := st.history)
        && InChain(events, |old(events)|, parent, initial.history, st.history)
        && Kinds(events, |old(events)|) == KindsUpTo(Rounds(setting), out.iterations, setting.maxIterations) + [PlanningFailed]
    {
      if subgoalGoal != initial.goal { return initial, RunRaised; }
      ghost var base, before, rounds := |events|, initial.history, Rounds(setting);
      var last, ending, cs, rs;
      st, last, ending, cs, rs := PlayRounds(initial, parent, rounds, base, before);
      match ending {
        case Broken => out := RunRaised;
        case Found(k, accepted) =>
          st := WithPlanning(st, cs, rs, if recordsDecisions then accepted else [], k);
          out := PlanAccepted(k, accepted, rs);
        case Lost(k, reason) =>
          // a blank message makes the failure record invalid, and that error escapes
          if reason.ActorError? && Blank(reason.text) { return st, RunRaised; }
          ghost var id;
          st, out, id := Fail(st, reason, k, cs, rs, last, base, parent, before);
      }
    }

    /** A round, and the refinement event when it was fruitless and another follows. */
    method TakeTurn(st: BrainState, feedback: seq<MonitorResult>, k: nat, last: Option<string>,
                    ghost rounds: nat -> Round, ghost base: nat, ghost parent: Option<string>, ghost before: seq<string>)
      returns (next: BrainState, id: Option<string>, round: Round)
      requires Linked(events, base, parent, before, st.history, last)
      requires k >= 1 && rounds == Rounds(setting) && feedback == Feedback(setting, k)
      modifies this
      ensures round == rounds(k) && (round.Done? ==> Feedback(setting, k + 1) == Rejections(round.results))
      ensures Linked(events, base, parent, before, next.history, id) && next == st.(history := next.history)
      ensures Kinds(events, base) == Kinds(old(events), base) + TurnKinds(round, k, setting.maxIterations)
    {
      next, id, round := PlayRound(st, feedback, k, last, base, parent, before);
      RoundIs(setting, k, feedback, round);
      if Fruitless(round) && k < setting.maxIterations {
        next, id := Mint(next, ActorRefinement, id, base, parent, before);
        Joined(Kinds(old(events), base), RoundKinds(round), [ActorRefinement]);
      }
    }

    /** One turn of the loop: it ends the rounds, or hands its feedback to the next. */
    method Advance(st: BrainState, feedback: seq<MonitorResult>, cs: seq<Candidate>, rs: seq<MonitorResult>, k: nat, last: Option<string>,
                   ghost rounds: nat -> Round, ghost base: nat, ghost parent: Option<string>, ghost before: seq<string>)
      returns (next: BrainState, id: Option<string>, ending: Option<Ending>, cs': seq<Candidate>, rs': seq<MonitorResult>, feedback': seq<MonitorResult>)
      requires Linked(events, base, parent, before, st.history, last)
      requires 1 <= k <= setting.maxIterations && rounds == Rounds(setting) && feedback == Feedback(setting, k)
      requires Recorded(rounds, k - 1, setting.maxIterations, cs, rs, Kinds(events, base))
      modifies this
      ensures Linked(events, base, parent, before, next.history, id) && next == st.(history := next.history)
      ensures ending != Some(Broken) ==> Recorded(rounds, k, setting.maxIterations, cs', rs', Kinds(events, base))
      ensures ending.Some? ==> LoopFrom(rounds, k, setting.maxIterations) == OutcomeOf(ending.value, rs') && (ending.value.Broken? || ending.value.k == k)
      ensures ending.None? ==> LoopFrom(rounds, k, setting.maxIterations) == LoopFrom(rounds, k + 1, setting.maxIterations)
      ensures ending.None? ==> feedback' == Feedback(setting, k + 1)
    {
      var round;
      next, id, round := TakeTurn(st, feedback, k, last, rounds, base, parent, before);
      TurnAdds(rounds, k, setting.maxIterations);
      cs', rs', feedback' := cs, rs, feedback;
      if round.MonitorRaised? {
        ending := Some(Broken);
      } else if round.ActorFailed? {
        ending := Some(Lost(k, ActorError(round.reason)));
      } else {
        cs', rs', feedback' := cs + round.candidates, rs + round.results, Rejections(round.results);
        ending := if Accepted(round.results) == [] then None else Some(Found(k, CandidateIds(Accepted(round.results))));
      }
    }

    method PlayRounds(initial: BrainState, parent: Option<string>, ghost rounds: nat -> Round, ghost base: nat, ghost before: seq<string>)
      returns (st: BrainState, last: Option<string>, ending: Ending, cs: seq<Candidate>, rs: seq<MonitorResult>)
      requires rounds == Rounds(setting) && base == |events| && before == initial.history
      modifies this
      ensures Linked(events, base, parent, before, st.history, last) && st == initial.(history := st.history)
      ensures LoopFrom(rounds, 1, setting.maxIterations) == OutcomeOf(ending, rs)
      ensures !ending.Broken? ==> Recorded(rounds, ending.k, setting.maxIterations, cs, rs, Kinds(events, base))
    {
      cs, rs := [], [];
      var feedback: seq<MonitorResult> := [];
      st, last := initial, parent;
      FeedbackStart(setting);
      for k := 1 to setting.maxIterations + 1
        invariant feedback == Feedback(setting, k) && Recorded(rounds, k - 1, setting.maxIterations, cs, rs, Kinds(events, base))
        invariant Linked(events, base, parent, before, st.history, last) && st == initial.(history := st.history)
        invariant LoopFrom(rounds, 1, setting.maxIterations) == LoopFrom(rounds, k, setting.maxIterations)
      {
        var end;
        st, last, end, cs, rs, feedback := Advance(st, feedback, cs, rs, k, last, rounds, base, parent, before);
        if end.Some? { return st, last, end.value, cs, rs; }
      }
      ending := Lost(setting.maxIterations, BudgetExhausted);
    }
  }

  /** What the rounds up to `n` have left: their candidates, results and trace. */
  ghost predicate Recorded(rounds: nat -> Round, n: nat, max: nat, cs: seq<Candidate>, rs: seq<MonitorResult>, kinds: seq<EventKind>) {
    cs == CandidatesUpTo(rounds, n) && rs == ResultsUpTo(rounds, n) && kinds == KindsUpTo(rounds, n, max)
  }

  function OutcomeOf(ending: Ending, rs: seq<MonitorResult>): Outcome {
    match ending
    case Broken => RunRaised
    case Found(k, accepted) => PlanAccepted(k, accepted, rs)
    case Lost(k, reason) => if reason.ActorError? && Blank(reason.text) then RunRaised else PlanFailed(k, reason, rs)
  }

  ghost predicate InChain(events: seq<Event>, base: nat, parent: Option<string>, before: seq<string>, history: seq<string>) {
    base <= |events| && Linked(events, base, parent, before, history, ParentAt(events, |events|, base, parent))
  }

  lemma FeedbackStart(s: LoopSetting)
    ensures Feedback(s, 1) == []
  {
  }

  lemma RoundIs(s: LoopSetting, k: nat, feedback: seq<MonitorResult>, round: Round)
    requires k >= 1 && feedback == Feedback(s, k) && round == RoundWith(s, feedback, k)
    ensures Rounds(s)(k) == round
    ensures round.Done? ==> Feedback(s, k + 1) == Rejections(round.results)
  {
    assert RoundAt(s, k) == round;
  }
}
