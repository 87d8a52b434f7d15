/** Owner authority: the persisted state, the policy decision over it, and the
    only mint of authorized actions. */
module Authority {
  import opened Common

  // ---------------------------------------------------------------- data ---

  /** The stable semantic fingerprint of a proposal.  The source hashes the
      canonical JSON of exactly these five fields; the model keeps the fields
      themselves, so the attempt number, the proposal id, the model id and the
      note cannot influence it. */
  datatype ActionKey = ActionKey(task: string, step: string, tool: string, operation: string, args: string)

  datatype Proposal = Proposal(
    id: string, task: string, step: string, attempt: int, model: string,
    tool: string, operation: string, args: string, note: string)
  {
    function Fingerprint(): ActionKey { ActionKey(task, step, tool, operation, args) }
  }

  datatype Capability = Capability(name: string, resource: string) {
    function Namespace(): string { BeforeDot(name) }
  }

  datatype Granter = ByPolicy | ByOwner

  datatype Grant = Grant(proposalId: string, fingerprint: ActionKey, profile: string, grantedBy: Granter, epoch: nat)

  datatype AuthorizedAction = AuthorizedAction(id: string, proposal: Proposal, grant: Grant) {
    predicate Bound() { grant.proposalId == proposal.id && grant.fingerprint == proposal.Fingerprint() }
    function Key(): ActionKey { proposal.Fingerprint() }
  }

  datatype Instruction = Instruction(id: string, rule: string, resource: string)

  /** `grant` is the profile the owner granted.  A pending conflict keeps the
      fingerprint it asks about (`None` when the payload carries an empty one). */
  datatype AuthorityState = AuthorityState(
    epoch: nat,
    grant: Option<string>,
    instructions: seq<Instruction>,
    conflicts: map<string, Option<ActionKey>>,
    overrides: set<ActionKey>,
    denied: set<ActionKey>)

  const EMPTY := AuthorityState(1, None, [], map[], {}, {})
  const FULL := "FULL_PC_AUTONOMY"

  /** The JSON file behind the store.  An unreadable one may still hold its content,
      which a later read may bring back. */
  datatype StateFile = Missing | Corrupt(beneath: Option<AuthorityState>) | Saved(state: AuthorityState)

  /** `None` stands for the ConfigInvalid error of an unreadable file. */
  function Load(file: StateFile): Option<AuthorityState> {
    match file
    case Missing => Some(EMPTY)
    case Corrupt(_) => None
    case Saved(st) => Some(st)
  }

  function StateOrEmpty(file: StateFile): AuthorityState {
    if file.Saved? then file.state else EMPTY
  }

  /** What the file holds, readable or not. */
  function OnDisk(file: StateFile): AuthorityState {
    match file
    case Missing => EMPTY
    case Corrupt(beneath) => if beneath.Some? then beneath.value else EMPTY
    case Saved(st) => st
  }

  /** Unreadable for good. */
  predicate Ruined(file: StateFile) { file.Corrupt? && file.beneath.None? }

  /** The file as one read finds it, which may fail. */
  function Seen(file: StateFile, readable: bool): StateFile {
    if file.Saved? && !readable then Corrupt(Some(file.state)) else file
  }

  // --------------------------------------------------- owner state changes ---

  function GrantFull(st: AuthorityState): AuthorityState {
    if st.grant == Some(FULL) then st else st.(grant := Some(FULL), epoch := st.epoch + 1)
  }

  function Revoke(st: AuthorityState): AuthorityState {
    st.(grant := None, overrides := {}, conflicts := map[], epoch := st.epoch + 1)
  }

  /** What a rule list is cleared of. */
  datatype Doomed = RuleIs(text: string) | IdIs(text: string) {
    predicate Has(i: Instruction) { text == if RuleIs? then i.rule else i.id }
  }

  /** The rules that stay, as a list comprehension leaves them. */
  function Without(rules: seq<Instruction>, goes: Doomed): seq<Instruction> {
    if rules == [] then []
    else
      var n := |rules| - 1;
      if goes.Has(rules[n]) then Without(rules[..n], goes) else Without(rules[..n], goes) + [rules[n]]
  }

  function WithoutRule(rules: seq<Instruction>, rule: string): seq<Instruction> { Without(rules, RuleIs(rule)) }

  function WithoutId(rules: seq<Instruction>, id: string): seq<Instruction> { Without(rules, IdIs(id)) }

  function Instruct(st: AuthorityState, i: Instruction): AuthorityState {
    st.(instructions := WithoutRule(st.instructions, i.rule) + [i])
  }

  /** `left` holds the rules at the places `at`, in their old order. */
  ghost predicate Picks(rules: seq<Instruction>, left: seq<Instruction>, at: seq<nat>) {
    && |at| == |left|
    && (forall k :: 0 <= k < |at| ==> at[k] < |rules| && left[k] == rules[at[k]])
    && (forall j, k :: 0 <= j < k < |at| ==> at[j] < at[k])
  }

  lemma {:induction false} WithoutPicks(rules: seq<Instruction>, goes: Doomed) returns (at: seq<nat>)
    ensures Picks(rules, Without(rules, goes), at)
    ensures forall p :: 0 <= p < |rules| ==> (p in at <==> !goes.Has(rules[p]))
  {
    at := [];
    if rules != [] {
      var n := |rules| - 1;
      var before := WithoutPicks(rules[..n], goes);
      PicksGrow(rules, Without(rules[..n], goes), before);
      at := if goes.Has(rules[n]) then before else before + [n];
      forall p | 0 <= p < |rules| ensures p in at <==> !goes.Has(rules[p]) {
        assert p < n ==> rules[..n][p] == rules[p];
        assert p in at <==> p in before || (p == n && !goes.Has(rules[n]));
      }
    }
  }

  lemma PicksGrow(rules: seq<Instruction>, left: seq<Instruction>, before: seq<nat>)
    requires rules != [] && Picks(rules[..|rules| - 1], left, before)
    ensures var n := |rules| - 1;
      Picks(rules, left, before) && Picks(rules, left + [rules[n]], before + [n]) && n !in before
  {
  }

  predicate OneEach(rules: seq<Instruction>) {
    forall i, j :: 0 <= i < j < |rules| ==> rules[i].rule != rules[j].rule
  }

  /** A NEW INSTRUCTION comes last and takes the place of exactly the older ones with
      its rule; all others stay as they are, in order, and no rule is ever listed
      twice. */
  lemma InstructMeaning(st: AuthorityState, i: Instruction) returns (at: seq<nat>)
    ensures var now := Instruct(st, i).instructions;
      && now != [] && now[|now| - 1] == i && Picks(st.instructions, now[..|now| - 1], at)
      && (forall p :: 0 <= p < |st.instructions| ==> (p in at <==> st.instructions[p].rule != i.rule))
      && (forall x :: x in now <==> x == i || (x in st.instructions && x.rule != i.rule))
      && (OneEach(st.instructions) ==> OneEach(now))
  {
    var rules := st.instructions;
    var left := WithoutRule(rules, i.rule);
    at := WithoutPicks(rules, RuleIs(i.rule));
    assert (left + [i])[..|left|] == left;
    PickedMembers(rules, left, at);
  }

  /** Stating a rule again leaves only the newer statement. */
  lemma RestatedOnce(st: AuthorityState, i: Instruction, j: Instruction)
    requires i.rule == j.rule
    ensures Instruct(Instruct(st, i), j) == Instruct(st, j)
  {
    var left := WithoutRule(st.instructions, i.rule);
    var at := WithoutPicks(st.instructions, RuleIs(i.rule));
    PickedMembers(st.instructions, left, at);
    WithoutLast(left, RuleIs(i.rule), i);
  }

  lemma PickedMembers(rules: seq<Instruction>, left: seq<Instruction>, at: seq<nat>)
    requires Picks(rules, left, at)
    ensures forall x :: x in left <==> exists p :: 0 <= p < |rules| && p in at && rules[p] == x
    ensures OneEach(rules) ==> OneEach(left)
  {
    forall x | x in left ensures exists p :: 0 <= p < |rules| && p in at && rules[p] == x {
      var k :| 0 <= k < |left| && left[k] == x;
      assert at[k] in at && rules[at[k]] == x;
    }
    forall p | 0 <= p < |rules| && p in at ensures rules[p] in left {
      var k :| 0 <= k < |at| && at[k] == p;
      assert left[k] == rules[p];
    }
  }

  lemma {:induction false} WithoutNothing(left: seq<Instruction>, goes: Doomed)
    requires forall x <- left :: !goes.Has(x)
    ensures Without(left, goes) == left
  {
    if left != [] {
      assert left[|left| - 1] in left;
      WithoutNothing(left[..|left| - 1], goes);
    }
  }

  lemma WithoutLast(left: seq<Instruction>, goes: Doomed, last: Instruction)
    requires goes.Has(last) && forall x <- left :: !goes.Has(x)
    ensures Without(left + [last], goes) == left
  {
    assert (left + [last])[..|left|] == left;
    WithoutNothing(left, goes);
  }

  /** DROPPING AN ID removes exactly the instructions that have it and keeps the
      others in order, so taking back a new instruction restores the list. */
  lemma DropMeaning(rules: seq<Instruction>, id: string) returns (at: seq<nat>)
    ensures var left := WithoutId(rules, id);
      && Picks(rules, left, at)
      && (forall p :: 0 <= p < |rules| ==> (p in at <==> rules[p].id != id))
      && (forall x :: x in left <==> x in rules && x.id != id)
      && (OneEach(rules) ==> OneEach(left))
    ensures (forall x <- rules :: x.id != id) ==> forall rule, resource :: WithoutId(rules + [Instruction(id, rule, resource)], id) == rules
  {
    at := WithoutPicks(rules, IdIs(id));
    PickedMembers(rules, WithoutId(rules, id), at);
    if forall x <- rules :: x.id != id {
      forall rule, resource ensures WithoutId(rules + [Instruction(id, rule, resource)], id) == rules {
        WithoutLast(rules, IdIs(id), Instruction(id, rule, resource));
      }
    }
  }

  function RecordConflict(st: AuthorityState, request: string, key: Option<ActionKey>): AuthorityState {
    st.(conflicts := st.conflicts[request := key])
  }

  datatype OwnerDecision = Allow | Deny | Unclear

  /** An answer is refused unless it comes from the owner, is ALLOW or DENY, and
      names a conflict that is still pending. */
  predicate Answerable(st: AuthorityState, request: string, decision: OwnerDecision, resolver: string) {
    resolver == "owner" && !decision.Unclear? && request in st.conflicts
  }

  function Answer(st: AuthorityState, request: string, decision: OwnerDecision, resolver: string): AuthorityState {
    if !Answerable(st, request, decision, resolver) then st
    else
      var key := st.conflicts[request];
      var popped := st.(conflicts := st.conflicts - {request});
      if key.None? then popped
      else if decision.Allow? then
        popped.(overrides := st.overrides + {key.value}, denied := st.denied - {key.value})
      else
        popped.(overrides := st.overrides - {key.value}, denied := st.denied + {key.value})
  }

  // -------------------------------------------------------------- policy ---

  datatype Decision = PolicyAllow | PolicyDeny | AskOwner

  /** `fold` is the path normalisation of owner rules (separators, case, trailing
      slash); the policy is stated for any such function. */
  datatype Policy = Policy(patterns: seq<string>, hardDenied: seq<string>, fold: string -> string)

  function BeforeDot(s: string): string {
    if s == "" || s[0] == '.' then "" else [s[0]] + BeforeDot(s[1..])
  }

  function AfterDot(s: string): string {
    if s == "" then "" else if s[0] == '.' then s[1..] else AfterDot(s[1..])
  }

  predicate ResourceMatches(fold: string -> string, pattern: string, resource: string) {
    pattern != "" &&
    var p, r := fold(pattern), fold(resource);
    Occurs(p, r) || (Occurs(r, p) && |r| >= |p|)
  }

  predicate PatternMatch(patterns: seq<string>, cap: Capability) {
    patterns != [] &&
    if patterns[0] == "full" then true
    else if BeforeDot(patterns[0]) != cap.Namespace() then PatternMatch(patterns[1..], cap)
    else AfterDot(patterns[0]) == "*" || patterns[0] == cap.name
  }

  function Evaluate(policy: Policy, cap: Capability, st: AuthorityState): Decision {
    if policy.patterns == [] || st.grant.None? then PolicyDeny
    else if exists d <- policy.hardDenied :: ResourceMatches(policy.fold, d, cap.resource) then PolicyDeny
    else if exists i <- st.instructions :: ResourceMatches(policy.fold, i.resource, cap.resource) then AskOwner
    else if !PatternMatch(policy.patterns, cap) then PolicyDeny
    else PolicyAllow
  }

  /** A pattern decides a capability when it is "full" or shares its namespace. */
  predicate Decides(pattern: string, cap: Capability) {
    pattern == "full" || BeforeDot(pattern) == cap.Namespace()
  }

  predicate Covers(pattern: string, cap: Capability) {
    pattern == "full" || (BeforeDot(pattern) == cap.Namespace() && (AfterDot(pattern) == "*" || pattern == cap.name))
  }

  /** Only the FIRST deciding pattern counts: a capability matches exactly when
      some pattern covers it and no earlier pattern decides it otherwise. */
  lemma {:induction false} PatternMatchIsFirstDecider(patterns: seq<string>, cap: Capability)
    ensures PatternMatch(patterns, cap) <==>
      exists i :: 0 <= i < |patterns| && Covers(patterns[i], cap) &&
                  forall j :: 0 <= j < i ==> !Decides(patterns[j], cap)
  {
    if patterns != [] {
      var rest := patterns[1..];
      PatternMatchIsFirstDecider(rest, cap);
      if Decides(patterns[0], cap) {
        if Covers(patterns[0], cap) { assert Covers(patterns[0], cap); }
      } else {
        forall i | 0 <= i < |rest| ensures rest[i] == patterns[i + 1] {}
        if PatternMatch(rest, cap) {
          var i :| 0 <= i < |rest| && Covers(rest[i], cap) && forall j :: 0 <= j < i ==> !Decides(rest[j], cap);
          assert Covers(patterns[i + 1], cap);
          forall j | 0 <= j < i + 1 ensures !Decides(patterns[j], cap) {
            if j > 0 { assert rest[j - 1] == patterns[j]; }
          }
        }
        if i :| 0 <= i < |patterns| && Covers(patterns[i], cap) && forall j :: 0 <= j < i ==> !Decides(patterns[j], cap) {
          assert rest[i - 1] == patterns[i];
          forall j | 0 <= j < i - 1 ensures !Decides(rest[j], cap) { assert rest[j] == patterns[j + 1]; }
        }
      }
    }
  }

  /** So listing two operations of one namespace grants only the first of them. */
  lemma SecondPatternOfANamespaceIsDead()
    ensures !PatternMatch(["fs.read", "fs.write"], Capability("fs.write", ""))
    ensures Covers("fs.write", Capability("fs.write", ""))
  {
    assert BeforeDot("fs.read") == "fs" by { calc { BeforeDot("fs.read"); "f" + BeforeDot("s.read"); "f" + ("s" + BeforeDot(".read")); "fs"; } }
    assert BeforeDot("fs.write") == "fs" by { calc { BeforeDot("fs.write"); "f" + BeforeDot("s.write"); "f" + ("s" + BeforeDot(".write")); "fs"; } }
    assert AfterDot("fs.read") == "read" by { calc { AfterDot("fs.read"); AfterDot("s.read"); AfterDot(".read"); "read"; } }
  }

  // ------------------------------------------------------------ the mint ---

  datatype AuthReply =
    | Authorized(action: AuthorizedAction)
    | Pending(request: string)
    | Refused
    | StoreUnreadable

  datatype AuthOutcome = AuthOutcome(file: StateFile, reply: AuthReply)

  function Mint(id: string, p: Proposal, st: AuthorityState, granter: Granter): AuthorizedAction {
    AuthorizedAction(id, p,
      Grant(p.id, p.Fingerprint(), if st.grant.Some? then st.grant.value else "NONE", granter, st.epoch))
  }

  /** Which of the reads of one authorization succeed: the policy's, the mint's, and
      those that use an override up, look up a denial and record a question. */
  datatype Reads = Reads(atPolicy: bool, atMint: bool, atUse: bool, atDenial: bool, atQuestion: bool)

  const ALL_READ := Reads(true, true, true, true, true)

  /** What one authorization draws: the ids it would give and how its reads go. */
  datatype Draw = Draw(id: string, request: string, access: Reads)

  /** One call of `AuthorizationService.authorize`. */
  function Authorize(policy: Policy, file: StateFile, p: Proposal, cap: Capability, draw: Draw): AuthOutcome {
    var st, seen := StateOrEmpty(file), StateOrEmpty(Seen(file, draw.access.atMint));
    var key := p.Fingerprint();
    match Evaluate(policy, cap, StateOrEmpty(Seen(file, draw.access.atPolicy)))
    case PolicyDeny => AuthOutcome(file, Refused)
    case PolicyAllow => AuthOutcome(file, Authorized(Mint(draw.id, p, seen, ByPolicy)))
    case AskOwner =>
      if Seen(file, draw.access.atUse).Corrupt? then AuthOutcome(file, StoreUnreadable)
      else if key in st.overrides then
        AuthOutcome(Saved(st.(overrides := st.overrides - {key})), Authorized(Mint(draw.id, p, seen, ByOwner)))
      else if key in StateOrEmpty(Seen(file, draw.access.atDenial)).denied then AuthOutcome(file, Refused)
      else if Seen(file, draw.access.atQuestion).Corrupt? then AuthOutcome(file, StoreUnreadable)
      else AuthOutcome(Saved(RecordConflict(st, draw.request, Some(key))), Pending(draw.request))
  }

  /** What any authorized action says about the state that minted it; one minted over
      a failed read names the epoch and the profile of no grant. */
  lemma MintFacts(policy: Policy, file: StateFile, p: Proposal, cap: Capability, draw: Draw)
    ensures var out := Authorize(policy, file, p, cap, draw);
      var st := StateOrEmpty(file);
      && (out.reply.Authorized? ==>
           var a := out.reply.action;
           && file.Saved? && st.grant.Some? && a.Bound() && a.Key() == p.Fingerprint()
           && a.grant.epoch == (if draw.access.atMint then st.epoch else EMPTY.epoch)
           && a.grant.profile == (if draw.access.atMint then st.grant.value else "NONE")
           && (a.grant.grantedBy.ByOwner? <==> Evaluate(policy, cap, st).AskOwner?)
           && (a.grant.grantedBy.ByOwner? ==> a.Key() in st.overrides)
           && (a.grant.grantedBy.ByPolicy? ==> PatternMatch(policy.patterns, cap)))
      && (out.reply.Pending? ==> p.Fingerprint() !in st.overrides && (draw.access.atDenial ==> p.Fingerprint() !in st.denied))
      && (out.reply.StoreUnreadable? ==> draw.access != ALL_READ)
  {
  }

  /** What authorizing does to the state file: it may use up an override or record a
      question, and leaves all else alone. */
  lemma AuthorizeKeeps(policy: Policy, file: StateFile, p: Proposal, cap: Capability, draw: Draw)
    ensures var out := Authorize(policy, file, p, cap, draw).file;
      var st, t := OnDisk(file), OnDisk(out);
      && (out == file || (out.Saved? && file.Saved?))
      && t.epoch == st.epoch && t.grant == st.grant && t.instructions == st.instructions && t.denied == st.denied
      && (t.overrides == st.overrides || t.overrides == st.overrides - {p.Fingerprint()})
  {
  }

  // ------------------------------------------------- what the answers are ---

  /** Some listed pattern is contained in the resource. */
  predicate Contained(fold: string -> string, patterns: seq<string>, resource: string) {
    exists d <- patterns :: d != "" && Occurs(fold(d), fold(resource))
  }

  /** A pattern matches exactly when it is contained in the resource: the second test
      of the source, the other way round, needs equal lengths and adds nothing. */
  lemma MatchesMeansContained(fold: string -> string, pattern: string, resource: string)
    ensures ResourceMatches(fold, pattern, resource) <==> pattern != "" && Occurs(fold(pattern), fold(resource))
  {
    var p, r := fold(pattern), fold(resource);
    if Occurs(r, p) && |r| >= |p| {
      var i :| 0 <= i <= |p| && r <= p[i..];
      assert i == 0 && r == p && p <= r[0..];
    }
  }

  lemma ContainedMeansMatches(fold: string -> string, patterns: seq<string>, resource: string)
    ensures (exists d <- patterns :: ResourceMatches(fold, d, resource)) <==> Contained(fold, patterns, resource)
  {
    forall d | d in patterns ensures ResourceMatches(fold, d, resource) <==> d != "" && Occurs(fold(d), fold(resource)) {
      MatchesMeansContained(fold, d, resource);
    }
  }

  /** HARD DENIALS ARE ABSOLUTE: an action on a resource the configuration denies is
      refused and leaves the file alone, in every state, whatever the owner granted or
      allowed and however the reads go. */
  lemma HardDeniedIsRefused(policy: Policy, file: StateFile, p: Proposal, cap: Capability, draw: Draw)
    requires Contained(policy.fold, policy.hardDenied, cap.resource)
    ensures Authorize(policy, file, p, cap, draw) == AuthOutcome(file, Refused)
  {
    ContainedMeansMatches(policy.fold, policy.hardDenied, cap.resource);
  }

  /** Nothing to ask about: no patterns, no grant, or a hard-denied resource. */
  predicate ClosedTo(policy: Policy, st: AuthorityState, cap: Capability) {
    policy.patterns == [] || st.grant.None? || Contained(policy.fold, policy.hardDenied, cap.resource)
  }

  /** An owner instruction covers the resource. */
  predicate Instructed(policy: Policy, st: AuthorityState, cap: Capability) {
    exists i <- st.instructions :: i.resource != "" && Occurs(policy.fold(i.resource), policy.fold(cap.resource))
  }

  /** The artifact of a proposal, under the grant and the epoch the mint has read. */
  function MintedAs(draw: Draw, p: Proposal, st: AuthorityState, granter: Granter): AuthorizedAction {
    AuthorizedAction(draw.id, p,
      if draw.access.atMint && st.grant.Some? then Grant(p.id, p.Fingerprint(), st.grant.value, granter, st.epoch)
      else Grant(p.id, p.Fingerprint(), "NONE", granter, if draw.access.atMint then st.epoch else 1))
  }

  /** The first pattern that is "full" or of the capability's namespace is "full", the
      whole namespace, or the capability itself. */
  predicate InProfile(policy: Policy, cap: Capability) {
    exists i :: 0 <= i < |policy.patterns| && Covers(policy.patterns[i], cap) &&
                forall j :: 0 <= j < i ==> !Decides(policy.patterns[j], cap)
  }

  lemma EvaluateExactly(policy: Policy, cap: Capability, st: AuthorityState)
    ensures Evaluate(policy, cap, st) ==
      if ClosedTo(policy, st, cap) then PolicyDeny
      else if Instructed(policy, st, cap) then AskOwner
      else if InProfile(policy, cap) then PolicyAllow
      else PolicyDeny
  {
    ContainedMeansMatches(policy.fold, policy.hardDenied, cap.resource);
    forall i | i in st.instructions
      ensures ResourceMatches(policy.fold, i.resource, cap.resource) <==> i.resource != "" && Occurs(policy.fold(i.resource), policy.fold(cap.resource))
    {
      MatchesMeansContained(policy.fold, i.resource, cap.resource);
    }
    PatternMatchIsFirstDecider(policy.patterns, cap);
  }

  /** THE ANSWERS, each with its exact guard, what it leaves in the file and what it
      mints.  A failed read of the policy's refuses; one of the mint's yields an
      artifact of no grant; one of the others is an error, but for the look at the
      denials, which then finds none. */
  lemma AuthorizeExactly(policy: Policy, st: AuthorityState, p: Proposal, cap: Capability, draw: Draw)
    ensures var out := Authorize(policy, Saved(st), p, cap, draw);
      var key, got := p.Fingerprint(), draw.access;
      var open := got.atPolicy && !ClosedTo(policy, st, cap);
      var asked := open && Instructed(policy, st, cap);
      if open && !asked && InProfile(policy, cap) then
        out.file == Saved(st) && out.reply == Authorized(MintedAs(draw, p, st, ByPolicy))
      else if asked && !got.atUse then out == AuthOutcome(Saved(st), StoreUnreadable)
      else if asked && key in st.overrides then
        out.file == Saved(st.(overrides := st.overrides - {key})) && out.reply == Authorized(MintedAs(draw, p, st, ByOwner))
      else if asked && (!got.atDenial || key !in st.denied) then
        out == if got.atQuestion then AuthOutcome(Saved(st.(conflicts := st.conflicts[draw.request := Some(key)])), Pending(draw.request))
               else AuthOutcome(Saved(st), StoreUnreadable)
      else out == AuthOutcome(Saved(st), Refused)
  {
    EvaluateExactly(policy, cap, st);
    EvaluateExactly(policy, cap, EMPTY);
  }

  /** An unreadable or missing file refuses everything. */
  lemma NoFileNoAuthority(policy: Policy, file: StateFile, p: Proposal, cap: Capability, draw: Draw)
    requires !file.Saved?
    ensures Authorize(policy, file, p, cap, draw) == AuthOutcome(file, Refused)
  {
  }

  /** AN ALLOW ENABLES EXACTLY ONE MINT: after the owner's ALLOW the very next asking
      for that action is granted by the owner, and the one after that is asked again;
      after a DENY it is refused. */
  lemma AnswerDecidesTheNext(policy: Policy, st: AuthorityState, question: string, decision: OwnerDecision, p: Proposal, cap: Capability,
                             id: string, request: string)
    requires question in st.conflicts && st.conflicts[question] == Some(p.Fingerprint())
    requires !ClosedTo(policy, st, cap) && Instructed(policy, st, cap) && !decision.Unclear?
    ensures var answered := Answer(st, question, decision, "owner");
      var first := Authorize(policy, Saved(answered), p, cap, Draw(id, request, ALL_READ));
      var second := Authorize(policy, first.file, p, cap, Draw(id, request, ALL_READ));
      if decision.Allow? then
        && first.reply == Authorized(AuthorizedAction(id, p, Grant(p.id, p.Fingerprint(), st.grant.value, ByOwner, st.epoch)))
        && second.reply == Pending(request)
      else first.reply == Refused && first.file == Saved(answered)
  {
    var answered := Answer(st, question, decision, "owner");
    AuthorizeExactly(policy, answered, p, cap, Draw(id, request, ALL_READ));
    if decision.Allow? {
      AuthorizeExactly(policy, answered.(overrides := answered.overrides - {p.Fingerprint()}), p, cap, Draw(id, request, ALL_READ));
    }
  }

  /** What an answer touches: the question it takes up, and the overrides and denials
      at its own fingerprint.  An answer that is not the owner's, not clear, or to no
      pending question changes nothing. */
  lemma AnswerTouches(st: AuthorityState, question: string, decision: OwnerDecision, resolver: string)
    ensures var t := Answer(st, question, decision, resolver);
      if resolver == "owner" && (decision.Allow? || decision.Deny?) && question in st.conflicts then
        var key := st.conflicts[question];
        && t == st.(conflicts := t.conflicts, overrides := t.overrides, denied := t.denied)
        && t.conflicts.Keys == st.conflicts.Keys - {question} && (forall q <- t.conflicts :: t.conflicts[q] == st.conflicts[q])
        && (forall k :: key != Some(k) ==> (k in t.overrides <==> k in st.overrides) && (k in t.denied <==> k in st.denied))
        && (key.Some? ==> (key.value in t.overrides <==> decision.Allow?) && (key.value in t.denied <==> decision.Deny?))
      else t == st
  {
  }

  /** The owner's other changes, field by field. */
  lemma OwnerChanges(st: AuthorityState, question: string, key: Option<ActionKey>)
    ensures GrantFull(st).grant == Some("FULL_PC_AUTONOMY")
      && GrantFull(st) == st.(grant := GrantFull(st).grant, epoch := GrantFull(st).epoch)
      && GrantFull(st).epoch == (if st.grant == Some("FULL_PC_AUTONOMY") then st.epoch else st.epoch + 1)
    ensures var t := Revoke(st);
      t.grant.None? && t.overrides == {} && t.conflicts == map[] && t.epoch == st.epoch + 1
      && t.denied == st.denied && t.instructions == st.instructions
    ensures var t := RecordConflict(st, question, key);
      t.conflicts.Keys == st.conflicts.Keys + {question} && t.conflicts[question] == key
      && (forall q <- st.conflicts :: q != question ==> t.conflicts[q] == st.conflicts[q]) && t == st.(conflicts := t.conflicts)
    ensures StateOrEmpty(Missing) == AuthorityState(1, None, [], map[], {}, {}) && forall b :: StateOrEmpty(Corrupt(b)) == StateOrEmpty(Missing)
  {
  }

  /** A capability's namespace and operation are what stands before and after its
      first dot; without one there is no operation. */
  lemma {:induction false} DotSplits(s: string)
    ensures '.' !in BeforeDot(s)
    ensures s == if '.' in s then BeforeDot(s) + "." + AfterDot(s) else BeforeDot(s)
    ensures '.' !in s ==> AfterDot(s) == ""
  {
    if s != "" && s[0] != '.' { DotSplits(s[1..]); }
  }

  // ------------------------------------------------------- the live objects ---

  class AuthorityStore {
    var file: StateFile

    constructor ()
      ensures file == Missing
    {
      file := Missing;
    }

    method GrantFullPcAutonomy() returns (ok: bool)
      modifies this
      ensures ok == !old(file).Corrupt?
      ensures file == if ok && StateOrEmpty(old(file)).grant != Some(FULL) then Saved(GrantFull(StateOrEmpty(old(file)))) else old(file)
    {
      var loaded := Load(file);
      if loaded.None? { return false; }
      var st := loaded.value;
      if st.grant == Some(FULL) { return true; }
      st := st.(grant := Some(FULL));
      st := st.(epoch := st.epoch + 1);
      file := Saved(st);
      ok := true;
    }

    method RevokeAll() returns (ok: bool)
      modifies this
      ensures ok == !old(file).Corrupt?
      ensures file == if ok then Saved(Revoke(StateOrEmpty(old(file)))) else old(file)
    {
      var loaded := Load(file);
      if loaded.None? { return false; }
      var st := loaded.value.(grant := None);
      st := st.(overrides := {}, conflicts := map[]);
      st := st.(epoch := st.epoch + 1);
      file := Saved(st);
      ok := true;
    }

    /** `InstructMeaning` says what the new list is. */
    method AddInstruction(i: Instruction) returns (ok: bool)
      modifies this
      ensures ok == !old(file).Corrupt?
      ensures file == if ok then Saved(Instruct(StateOrEmpty(old(file)), i)) else old(file)
    {
      var loaded := Load(file);
      if loaded.None? { return false; }
      var st := loaded.value;
      file := Saved(st.(instructions := WithoutRule(st.instructions, i.rule) + [i]));
      ok := true;
    }

    /** `DropMeaning` says what the new list is. */
    method RemoveInstruction(id: string) returns (ok: bool)
      modifies this
      ensures ok == !old(file).Corrupt?
      ensures file == if ok then Saved(StateOrEmpty(old(file)).(instructions := WithoutId(StateOrEmpty(old(file)).instructions, id))) else old(file)
    {
      var loaded := Load(file);
      if loaded.None? { return false; }
      file := Saved(loaded.value.(instructions := WithoutId(loaded.value.instructions, id)));
      ok := true;
    }

    method RecordConflictRequest(request: string, key: Option<ActionKey>, readable: bool) returns (ok: bool)
      modifies this
      ensures ok == !Seen(old(file), readable).Corrupt?
      ensures file == if ok then Saved(RecordConflict(StateOrEmpty(old(file)), request, key)) else old(file)
    {
      var loaded := Load(Seen(file, readable));
      if loaded.None? { return false; }
      file := Saved(loaded.value.(conflicts := loaded.value.conflicts[request := key]));
      ok := true;
    }

    method AnswerConflict(request: string, decision: OwnerDecision, resolver: string) returns (ok: bool)
      modifies this
      ensures ok == (!old(file).Corrupt? && Answerable(StateOrEmpty(old(file)), request, decision, resolver))
      ensures file == if ok then Saved(Answer(StateOrEmpty(old(file)), request, decision, resolver)) else old(file)
    {
      if resolver != "owner" || decision.Unclear? { return false; }
      var loaded := Load(file);
      if loaded.None? { return false; }
      var st := loaded.value;
      if request !in st.conflicts { return false; }
      var key := st.conflicts[request];
      st := st.(conflicts := st.conflicts - {request});
      if decision.Allow? {
        if key.Some? {
          st := st.(overrides := st.overrides + {key.value});
          st := st.(denied := st.denied - {key.value});
        }
      } else if key.Some? {
        st := st.(overrides := st.overrides - {key.value});
        st := st.(denied := st.denied + {key.value});
      }
      file := Saved(st);
      ok := true;
    }

    method IsDenied(key: ActionKey, readable: bool) returns (denied: bool)
      ensures denied == (key in StateOrEmpty(Seen(file, readable)).denied)
    {
      var st := StateOrEmpty(Seen(file, readable));
      denied := key in st.denied;
    }

    /** `None` when the state file is unreadable. */
    method ConsumeOverride(key: ActionKey, readable: bool) returns (used: Option<bool>)
      modifies this
      ensures used == if Seen(old(file), readable).Corrupt? then None else Some(key in StateOrEmpty(old(file)).overrides)
      ensures file == if used == Some(true)
                      then Saved(StateOrEmpty(old(file)).(overrides := StateOrEmpty(old(file)).overrides - {key}))
                      else old(file)
    {
      var loaded := Load(Seen(file, readable));
      if loaded.None? { return None; }
      var st := loaded.value;
      if key in st.overrides {
        file := Saved(st.(overrides := st.overrides - {key}));
        return Some(true);
      }
      return Some(false);
    }
  }

  class AuthorizationService {
    const store: AuthorityStore
    const policy: Policy

    constructor (store: AuthorityStore, policy: Policy)
      ensures this.store == store && this.policy == policy
    {
      this.store := store;
      this.policy := policy;
    }

    method AuthorizeProposal(p: Proposal, cap: Capability, draw: Draw) returns (reply: AuthReply)
      modifies store
      ensures AuthOutcome(store.file, reply) == Authorize(policy, old(store.file), p, cap, draw)
    {
      var decision := Evaluate(policy, cap, StateOrEmpty(Seen(store.file, draw.access.atPolicy)));
      var st := StateOrEmpty(Seen(store.file, draw.access.atMint));
      var granter := ByPolicy;
      if decision.PolicyDeny? { return Refused; }
      if decision.AskOwner? {
        var key := p.Fingerprint();
        var used := store.ConsumeOverride(key, draw.access.atUse);
        if used.None? { return StoreUnreadable; }
        if !used.value {
          var denied := store.IsDenied(key, draw.access.atDenial);
          if denied { return Refused; }
          var recorded := store.RecordConflictRequest(draw.request, Some(key), draw.access.atQuestion);
          return if recorded then Pending(draw.request) else StoreUnreadable;
        }
        granter := ByOwner;
      }
      reply := Authorized(AuthorizedAction(draw.id, p,
        Grant(p.id, p.Fingerprint(), if st.grant.Some? then st.grant.value else "NONE", granter, st.epoch)));
    }
  }
}
