/** Mission plans: ordering the tasks, bounding the longest dependency chain, and
    starting only what may start. */
module MissionPlan {
  import opened Common

  // ---------------------------------------------------------------- data ---

  /** What each task depends on; the keys are the task ids. */
  type Deps = map<string, seq<string>>

  /** Task `i` of an order is new, and everything it depends on came before it. */
  predicate InPlace(deps: Deps, order: seq<string>, i: nat)
    requires i < |order|
  {
    order[i] in deps && order[i] !in order[..i] && forall d <- deps[order[i]] :: d in order[..i]
  }

  predicate Topological(deps: Deps, order: seq<string>) {
    forall i :: 0 <= i < |order| ==> InPlace(deps, order, i)
  }

  predicate Covers(deps: Deps, order: seq<string>) { forall n <- deps :: n in order }

  // ------------------------------------------------------------- ordering ---

  /** A set of tasks none of which can ever be the first of the set to start. */
  ghost predicate Stuck(deps: Deps, s: set<string>) {
    && s != {} && (forall n <- s :: n in deps)
    && (forall n <- s :: exists d <- deps[n] :: d in s || d !in deps)
  }

  predicate Ready(deps: Deps, emitted: set<string>, n: string)
    requires n in deps
  {
    forall d <- deps[n] :: d in emitted
  }

  /** The first remaining task whose dependencies are all emitted. */
  method FirstReady(deps: Deps, emitted: set<string>, remaining: seq<string>) returns (at: Option<nat>)
    requires forall n <- remaining :: n in deps
    ensures at.None? ==> forall n <- remaining :: !Ready(deps, emitted, n)
    ensures at.Some? ==> at.value < |remaining| && Ready(deps, emitted, remaining[at.value])
    ensures at.Some? ==> forall n <- remaining[..at.value] :: !Ready(deps, emitted, n)
  {
    for i := 0 to |remaining|
      invariant forall n <- remaining[..i] :: !Ready(deps, emitted, n)
    {
      if Ready(deps, emitted, remaining[i]) { return Some(i); }
      assert remaining[..i + 1] == remaining[..i] + [remaining[i]];
    }
    assert remaining[..|remaining|] == remaining;
    at := None;
  }

  lemma TopologicalAppend(deps: Deps, order: seq<string>, n: string)
    requires Topological(deps, order) && n in deps && n !in order && forall d <- deps[n] :: d in order
    ensures Topological(deps, order + [n])
  {
    var o := order + [n];
    forall i | 0 <= i < |o| ensures InPlace(deps, o, i) {
      if i < |order| {
        assert o[..i] == order[..i] && InPlace(deps, order, i);
      } else {
        assert o[..i] == order;
      }
    }
  }

  /** An order exists exactly when no set of tasks is stuck, and then it is found:
      failure names a stuck set, success is an order of all of them. */
  method EmitTopological(deps: Deps, ids: seq<string>) returns (order: Option<seq<string>>)
    requires forall n :: n in ids <==> n in deps
    requires forall i, j :: 0 <= i < j < |ids| ==> ids[i] != ids[j]
    ensures order.Some? ==> Topological(deps, order.value) && Covers(deps, order.value)
    ensures order.None? <==> exists s :: Stuck(deps, s)
  {
    var emitted: seq<string>, remaining := [], ids;
    while remaining != []
      invariant Topological(deps, emitted)
      invariant forall n :: n in deps <==> n in emitted || n in remaining
      invariant forall n <- remaining :: n !in emitted
      invariant forall i, j :: 0 <= i < j < |remaining| ==> remaining[i] != remaining[j]
      decreases |remaining|
    {
      var at := FirstReady(deps, (set n | n in emitted), remaining);
      if at.None? {
        StuckRest(deps, emitted, remaining);
        return None;
      }
      var n := remaining[at.value];
      TopologicalAppend(deps, emitted, n);
      Extracted(remaining, at.value);
      emitted := emitted + [n];
      remaining := remaining[..at.value] + remaining[at.value + 1..];
    }
    order := Some(emitted);
    forall s { OrderUnsticks(deps, emitted, s); }
  }

  lemma Extracted(xs: seq<string>, i: nat)
    requires i < |xs| && forall a, b :: 0 <= a < b < |xs| ==> xs[a] != xs[b]
    ensures var r := xs[..i] + xs[i + 1..];
      && (forall x :: x in r <==> x in xs && x != xs[i])
      && forall a, b :: 0 <= a < b < |r| ==> r[a] != r[b]
  {
    var r := xs[..i] + xs[i + 1..];
    forall a | 0 <= a < |r| ensures r[a] == xs[if a < i then a else a + 1] {}
    forall x | x in xs && x != xs[i] ensures x in r {
      var a :| 0 <= a < |xs| && xs[a] == x;
      assert r[if a < i then a else a - 1] == x;
    }
  }

  lemma StuckRest(deps: Deps, emitted: seq<string>, remaining: seq<string>)
    requires remaining != [] && (forall n :: n in deps <==> n in emitted || n in remaining)
    requires forall n <- remaining :: !Ready(deps, (set m | m in emitted), n)
    ensures Stuck(deps, set n | n in remaining)
  {
    var s := set n | n in remaining;
    assert remaining[0] in s;
    forall n | n in s ensures exists d <- deps[n] :: d in s || d !in deps {
      var d :| d in deps[n] && d !in (set m | m in emitted);
      assert d in deps ==> d in remaining;
    }
  }

  lemma {:induction false} FirstIn(order: seq<string>, s: set<string>) returns (i: nat)
    requires exists n <- order :: n in s
    ensures i < |order| && order[i] in s && forall n <- order[..i] :: n !in s
  {
    if order[0] in s {
      i := 0;
    } else {
      i := FirstIn(order[1..], s);
      i := i + 1;
      assert order[..i] == [order[0]] + order[1..][..i - 1];
    }
  }

  /** The first of a set to appear in an order waits for none of the set. */
  lemma FirstWaitsForNone(deps: Deps, order: seq<string>, s: set<string>) returns (n: string)
    requires Topological(deps, order) && s != {} && forall m <- s :: m in order
    ensures n in s && n in deps && forall d <- deps[n] :: d !in s && d in deps
  {
    var m :| m in s;
    var i := FirstIn(order, s);
    n := order[i];
    assert InPlace(deps, order, i);
    forall d | d in deps[n] ensures d !in s && d in deps {
      assert d in order[..i];
      var j :| 0 <= j < i && order[j] == d;
      assert InPlace(deps, order, j);
    }
  }

  /** Against an order of everything, no set is stuck. */
  lemma OrderUnsticks(deps: Deps, order: seq<string>, s: set<string>)
    requires Topological(deps, order) && Covers(deps, order)
    ensures !Stuck(deps, s)
  {
    if s != {} && forall m <- s :: m in order { var n := FirstWaitsForNone(deps, order, s); }
  }

  // ---------------------------------------------------------------- depth ---

  predicate Follows(deps: Deps, c: seq<string>, i: nat)
    requires i < |c|
  {
    c[i] in deps && (i > 0 ==> c[i - 1] in deps[c[i]])
  }

  /** A dependency chain: each task depends on the one before it. */
  predicate Chain(deps: Deps, c: seq<string>) {
    c != [] && forall i :: 0 <= i < |c| ==> Follows(deps, c, i)
  }

  lemma ChainPrefix(deps: Deps, c: seq<string>) returns (p: seq<string>)
    requires Chain(deps, c) && |c| > 1
    ensures p == c[..|c| - 1] && Chain(deps, p)
    ensures c[|c| - 1] in deps && p[|p| - 1] in deps[c[|c| - 1]]
  {
    p := c[..|c| - 1];
    assert Follows(deps, c, |c| - 1);
    forall i | 0 <= i < |p| ensures Follows(deps, p, i) { assert Follows(deps, c, i); }
  }

  lemma ChainExtends(deps: Deps, c: seq<string>, n: string)
    requires Chain(deps, c) && n in deps && c[|c| - 1] in deps[n]
    ensures Chain(deps, c + [n])
  {
    forall i | 0 <= i < |c + [n]| ensures Follows(deps, c + [n], i) {
      if i < |c| { assert Follows(deps, c, i); }
    }
  }

  /** `k` is the length of the longest chain that ends at `n`. */
  ghost predicate Longest(deps: Deps, n: string, k: nat) {
    && (exists c :: Chain(deps, c) && c[|c| - 1] == n && |c| == k)
    && (forall c :: Chain(deps, c) && c[|c| - 1] == n ==> |c| <= k)
  }

  /** `max(depth[d] for d in ds)`, zero when there is none. */
  function MaxOver(depth: map<string, nat>, ds: seq<string>): (m: nat)
    requires forall d <- ds :: d in depth
    ensures forall d <- ds :: depth[d] <= m
    ensures ds != [] ==> exists d <- ds :: depth[d] == m
  {
    if ds == [] then 0
    else
      var rest := MaxOver(depth, ds[1..]);
      if |ds| == 1 || depth[ds[0]] > rest then depth[ds[0]] else rest
  }

  lemma DepthStep(deps: Deps, depth: map<string, nat>, n: string)
    requires n in deps && (forall d <- deps[n] :: d in depth && Longest(deps, d, depth[d]))
    ensures Longest(deps, n, 1 + MaxOver(depth, deps[n]))
  {
    var m := MaxOver(depth, deps[n]);
    forall c | Chain(deps, c) && c[|c| - 1] == n ensures |c| <= 1 + m {
      if |c| > 1 {
        var p := ChainPrefix(deps, c);
      }
    }
    if deps[n] == [] {
      assert Follows(deps, [n], 0) && Chain(deps, [n]);
      assert [n][|[n]| - 1] == n;
    } else {
      var d :| d in deps[n] && depth[d] == m;
      var c :| Chain(deps, c) && c[|c| - 1] == d && |c| == depth[d];
      ChainExtends(deps, c, n);
      assert (c + [n])[|c + [n]| - 1] == n;
    }
  }

  /** Over ANY topological order, the computed depth of each task is the length of
      the longest dependency chain that ends there. */
  method Depths(deps: Deps, order: seq<string>) returns (depth: map<string, nat>)
    requires Topological(deps, order)
    ensures forall n :: n in depth <==> n in order
    ensures forall n <- depth :: Longest(deps, n, depth[n])
  {
    depth := map[];
    for i := 0 to |order|
      invariant forall n :: n in depth <==> n in order[..i]
      invariant forall n <- depth :: Longest(deps, n, depth[n])
    {
      var n := order[i];
      assert InPlace(deps, order, i);
      DepthStep(deps, depth, n);
      depth := depth[n := if deps[n] == [] then 1 else 1 + MaxOver(depth, deps[n])];
      assert order[..i + 1] == order[..i] + [n];
    }
    assert order[..|order|] == order;
  }

  datatype Validation = Valid | WrongGoal | TooManyNodes | TooDeep | EmptyDescription

  /** THE DEPTH CHECK rejects exactly when some chain is longer than the limit: a
      plan is valid exactly when its goal, its size, every chain of dependencies and
      every description are. */
  method ValidateMissionPlan(deps: Deps, order: seq<string>, descriptions: map<string, string>, rightGoal: bool, maxNodes: nat, maxDepth: nat)
    returns (v: Validation)
    requires Topological(deps, order) && Covers(deps, order) && forall n <- deps :: n in descriptions
    ensures v.Valid? <==>
      && rightGoal && |deps| <= maxNodes && (forall c :: Chain(deps, c) ==> |c| <= maxDepth)
      && (forall n <- deps :: !Blank(descriptions[n]))
    ensures v.TooDeep? <==> rightGoal && |deps| <= maxNodes && exists c :: Chain(deps, c) && |c| > maxDepth
  {
    if !rightGoal { return WrongGoal; }
    if |deps| > maxNodes { return TooManyNodes; }
    var shallow := CheckDepth(deps, order, maxDepth);
    if !shallow { return TooDeep; }
    var described := CheckDescriptions(deps, order, descriptions);
    v := if described then Valid else EmptyDescription;
  }

  method CheckDepth(deps: Deps, order: seq<string>, limit: nat) returns (ok: bool)
    requires Topological(deps, order) && Covers(deps, order)
    ensures ok <==> forall c :: Chain(deps, c) ==> |c| <= limit
  {
    var depth := Depths(deps, order);
    var deepest := MaxOver(depth, order);
    DeepestChain(deps, order, depth, deepest, limit);
    ok := deepest <= limit;
  }

  method CheckDescriptions(deps: Deps, order: seq<string>, descriptions: map<string, string>) returns (ok: bool)
    requires Topological(deps, order) && Covers(deps, order) && forall n <- deps :: n in descriptions
    ensures ok <==> forall n <- deps :: !Blank(descriptions[n])
  {
    for i := 0 to |order|
      invariant forall n <- order[..i] :: n in deps && !Blank(descriptions[n])
    {
      assert InPlace(deps, order, i);
      if Blank(descriptions[order[i]]) { return false; }
      assert order[..i + 1] == order[..i] + [order[i]];
    }
    assert order[..|order|] == order;
    ok := true;
  }

  lemma DeepestChain(deps: Deps, order: seq<string>, depth: map<string, nat>, deepest: nat, limit: nat)
    requires Covers(deps, order) && (forall n <- order :: n in depth && Longest(deps, n, depth[n]))
    requires (forall n <- order :: depth[n] <= deepest) && (order == [] ==> deepest == 0)
    requires order != [] ==> exists n <- order :: depth[n] == deepest
    ensures deepest > limit <==> exists c :: Chain(deps, c) && |c| > limit
  {
    if deepest > limit {
      var n :| n in order && depth[n] == deepest;
      var c :| Chain(deps, c) && c[|c| - 1] == n && |c| == depth[n];
    }
    if c :| Chain(deps, c) && |c| > limit {
      assert Follows(deps, c, |c| - 1);
    }
  }

  // ----------------------------------------------------------- scheduling ---

  datatype Status = Pending | ReadyStatus | Active | Completed | Failed | Blocked

  type Statuses = map<string, Status>

  predicate IsDone(st: Statuses, n: string) { n in st && st[n] == Completed }

  predicate Underway(st: Statuses, n: string) { n in st && (st[n] == Active || st[n] == Completed) }

  predicate DepsDone(deps: Deps, st: Statuses, n: string) { n in deps && forall d <- deps[n] :: IsDone(st, d) }

  predicate Eligible(deps: Deps, st: Statuses, n: string) { n in st && st[n] == ReadyStatus && DepsDone(deps, st, n) }

  /** The first eligible task of the plan. */
  function NextEligible(deps: Deps, st: Statuses, plan: seq<string>): (r: Option<string>)
    ensures r.Some? ==> r.value in plan && Eligible(deps, st, r.value)
    ensures r.None? ==> forall n <- plan :: !Eligible(deps, st, n)
  {
    if plan == [] then None else if Eligible(deps, st, plan[0]) then Some(plan[0]) else NextEligible(deps, st, plan[1..])
  }

  method SelectNext(deps: Deps, st: Statuses, plan: seq<string>, order: seq<string>) returns (r: Option<string>)
    ensures r == NextEligible(deps, st, if plan != [] then plan else order)
  {
    var ids := if plan != [] then plan else order;
    assert ids[0..] == ids;
    for i := 0 to |ids|
      invariant NextEligible(deps, st, ids[i..]) == NextEligible(deps, st, ids)
    {
      assert ids[i..][1..] == ids[i + 1..];
      if Eligible(deps, st, ids[i]) { return Some(ids[i]); }
    }
    r := None;
  }

  /** A task that waited and has nothing left to wait for is ready. */
  function Unlocked(deps: Deps, st: Statuses): Statuses {
    map n | n in st :: if st[n] == Pending && DepsDone(deps, st, n) then ReadyStatus else st[n]
  }

  /** The loop that releases the dependents of completed tasks. */
  method UnlockDependents(deps: Deps, ids: seq<string>, st: Statuses) returns (t: Statuses)
    requires forall n :: n in ids <==> n in deps
    ensures t == Unlocked(deps, st)
  {
    t := st;
    for i := 0 to |ids|
      invariant t.Keys == st.Keys
      invariant forall n <- st :: t[n] == if n in ids[..i] then Unlocked(deps, st)[n] else st[n]
    {
      var n := ids[i];
      assert ids[..i + 1] == ids[..i] + [n];
      assert forall d :: IsDone(t, d) <==> IsDone(st, d);
      if n in t && t[n] == Pending && DepsDone(deps, t, n) { t := t[n := ReadyStatus]; }
    }
    assert ids[..|ids|] == ids;
  }

  // ------------------------------------------------------------------ runs ---

  /** The statuses, and every task the scheduler ever handed out. */
  datatype Progress = Progress(st: Statuses, given: set<string>)

  /** The scheduler hands out an eligible task, marking it ACTIVE or leaving it READY.
      A task handed out and not yet completed may then become anything, in any order
      and any number of times; any other may become anything but ACTIVE or COMPLETED. */
  datatype Event = Hands(task: string, active: bool) | Moves(task: string, to: Status) | Unlocks

  function Apply(deps: Deps, p: Progress, e: Event): Progress {
    match e
    case Hands(n, active) =>
      if !Eligible(deps, p.st, n) then p else Progress(if active then p.st[n := Active] else p.st, p.given + {n})
    case Moves(n, to) =>
      if IsDone(p.st, n) || ((to == Active || to == Completed) && n !in p.given) then p else p.(st := p.st[n := to])
    case Unlocks => p.(st := Unlocked(deps, p.st))
  }

  function Run(deps: Deps, p: Progress, es: seq<Event>): Progress
    decreases |es|
  {
    if es == [] then p else Run(deps, Apply(deps, p, es[0]), es[1..])
  }

  lemma {:induction false} RunConcat(deps: Deps, p: Progress, xs: seq<Event>, ys: seq<Event>)
    ensures Run(deps, p, xs + ys) == Run(deps, Run(deps, p, xs), ys)
    decreases |xs|
  {
    if xs == [] {
      assert xs + ys == ys;
    } else {
      assert (xs + ys)[1..] == xs[1..] + ys;
      RunConcat(deps, Apply(deps, p, xs[0]), xs[1..], ys);
    }
  }

  lemma RunOne(deps: Deps, p: Progress, e: Event)
    ensures Run(deps, p, [e]) == Apply(deps, p, e)
  {
    assert [e][1..] == [];
  }

  /** Whatever was handed out has all its dependencies completed, and nothing else is
      running or completed. */
  ghost predicate Ordered(deps: Deps, p: Progress) {
    && (forall n <- p.given :: DepsDone(deps, p.st, n))
    && (forall n <- p.st :: Underway(p.st, n) ==> n in p.given)
  }

  lemma StepKeepsOrder(deps: Deps, p: Progress, e: Event)
    requires Ordered(deps, p)
    ensures var q := Apply(deps, p, e);
      && Ordered(deps, q) && p.given <= q.given
      && forall d <- p.st :: IsDone(p.st, d) ==> IsDone(q.st, d)
  {
    var q := Apply(deps, p, e);
    forall n | n in q.given ensures DepsDone(deps, q.st, n) { assert DepsDone(deps, p.st, n); }
  }

  /** COMPLETED STAYS CLOSED under dependencies over every run, whatever becomes of
      the tasks that were handed out; nothing is handed out before everything it
      depends on is done, and what is done stays done. */
  lemma {:induction false} RunKeepsOrder(deps: Deps, p: Progress, es: seq<Event>)
    requires Ordered(deps, p)
    ensures var q := Run(deps, p, es);
      && Ordered(deps, q) && p.given <= q.given
      && forall d <- p.st :: IsDone(p.st, d) ==> IsDone(q.st, d)
    decreases |es|
  {
    if es != [] {
      StepKeepsOrder(deps, p, es[0]);
      RunKeepsOrder(deps, Apply(deps, p, es[0]), es[1..]);
    }
  }

  /** A fresh status map (only READY and PENDING) is a good start. */
  lemma FreshIsOrdered(deps: Deps, st: Statuses, es: seq<Event>, n: string)
    requires forall m <- st :: st[m] == ReadyStatus || st[m] == Pending
    ensures var q := Run(deps, Progress(st, {}), es);
      && (IsDone(q.st, n) ==> n in q.given)
      && (n in q.given || Underway(q.st, n) ==> DepsDone(deps, q.st, n))
  {
    RunKeepsOrder(deps, Progress(st, {}), es);
  }

  // ------------------------------------------------- the nodes of the graph ---

  /** What the workflow carries between its nodes: `current` is the task it works on,
      `batch` the read-only tasks about to run side by side. */
  datatype Mission = Mission(p: Progress, current: Option<string>, batch: seq<string>)

  datatype Plan = Plan(deps: Deps, steps: seq<string>, order: seq<string>) {
    function Ids(): seq<string> { if steps != [] then steps else order }
  }

  /** The nodes that touch the statuses, with what they meet: how many workers may run
      at once and which tasks they may take, whether the worker budget has room, which
      workers ended and how, whether the current task succeeded and may be retried. */
  datatype Node =
    | ValidatesPlan
    | Schedules(readonly: set<string>, limit: nat, room: bool)
    | FansOut(ended: map<string, bool>, room: bool)
    | WorkerFails
    | Advances(ok: bool, retries: bool)
    | LetsGo

  /** The next eligible task becomes the current one. */
  function TakeNext(plan: Plan, m: Mission, active: bool): Mission {
    match NextEligible(plan.deps, m.p.st, plan.Ids())
    case None => m.(current := None)
    case Some(n) => m.(p := Apply(plan.deps, m.p, Hands(n, active)), current := Some(n))
  }

  function EligibleOnes(deps: Deps, st: Statuses, ids: seq<string>): seq<string> {
    if ids == [] then []
    else (if Eligible(deps, st, ids[0]) then [ids[0]] else []) + EligibleOnes(deps, st, ids[1..])
  }

  function OnlyIn(ids: seq<string>, s: set<string>): seq<string> {
    if ids == [] then [] else (if ids[0] in s then [ids[0]] else []) + OnlyIn(ids[1..], s)
  }

  /** Up to `limit` read-only tasks that may run now, the current one among them. */
  function Batch(plan: Plan, m: Mission, readonly: set<string>, limit: nat): seq<string> {
    var eligible := EligibleOnes(plan.deps, m.p.st, plan.Ids());
    var all := if m.current.Some? && m.current.value !in eligible then [m.current.value] + eligible else eligible;
    var some := OnlyIn(all, readonly);
    if |some| <= limit then some else some[..limit]
  }

  function MarkedActive(st: Statuses, batch: seq<string>): Statuses
    decreases |batch|
  {
    if batch == [] then st else MarkedActive(st[batch[0] := Active], batch[1..])
  }

  /** A worker that broke down leaves its task as it was. */
  function MarkedEnded(st: Statuses, batch: seq<string>, ended: map<string, bool>): Statuses
    decreases |batch|
  {
    if batch == [] then st
    else MarkedEnded(if batch[0] in ended then st[batch[0] := if ended[batch[0]] then Completed else Failed] else st, batch[1..], ended)
  }

  function Scheduled(plan: Plan, m: Mission, readonly: set<string>, limit: nat, room: bool): Mission {
    if plan.steps == [] then m.(current := None, batch := [])
    else if m.current.Some? && (limit <= 1 || m.current.value !in readonly) then m
    else
      var batch := Batch(plan, m, readonly, limit);
      if limit <= 1 || batch == [] then TakeNext(plan, m, true)
      else if !room then m.(current := None, batch := [])
      else Mission(Progress(MarkedActive(m.p.st, batch), m.p.given + set n | n in batch), Some(batch[0]), batch)
  }

  /** The task that was worked on is marked, its dependents are released, and it is
      kept for a retry or the next one is taken, still READY. */
  function Advanced(plan: Plan, m: Mission, ok: bool, retries: bool): Mission {
    var marked := if m.current.Some? then m.p.st[m.current.value := if ok then Completed else Failed] else m.p.st;
    var released := m.(p := m.p.(st := Unlocked(plan.deps, marked)));
    if m.current.Some? && !ok && retries then released else TakeNext(plan, released, false)
  }

  /** One node; a pending batch goes to the fan-out and nowhere else. */
  function Enter(plan: Plan, m: Mission, node: Node): Mission {
    if m.batch != [] && !node.FansOut? then m else
    match node
    case ValidatesPlan => if plan.steps == [] then m else TakeNext(plan, m, true)
    case Schedules(readonly, limit, room) => Scheduled(plan, m, readonly, limit, room)
    case FansOut(ended, room) =>
      if m.batch == [] || !room then m.(current := None, batch := [])
      else Mission(m.p.(st := Unlocked(plan.deps, MarkedEnded(m.p.st, m.batch, ended))), None, [])
    case WorkerFails => if m.current.None? then m else m.(p := m.p.(st := m.p.st[m.current.value := Failed]))
    case Advances(ok, retries) => Advanced(plan, m, ok, retries)
    case LetsGo => m.(current := None)
  }

  function Visit(plan: Plan, m: Mission, nodes: seq<Node>): Mission
    decreases |nodes|
  {
    if nodes == [] then m else Visit(plan, Enter(plan, m, nodes[0]), nodes[1..])
  }

  /** `advance_task`, live. */
  method AdvanceTask(plan: Plan, ids: seq<string>, m: Mission, ok: bool, retries: bool) returns (next: Mission)
    requires forall n :: n in ids <==> n in plan.deps
    ensures next == Advanced(plan, m, ok, retries)
  {
    var st := m.p.st;
    if m.current.Some? { st := st[m.current.value := if ok then Completed else Failed]; }
    st := UnlockDependents(plan.deps, ids, st);
    var found := SelectNext(plan.deps, st, plan.steps, plan.order);
    if m.current.Some? && !ok && retries {
      return Mission(Progress(st, m.p.given), m.current, m.batch);
    }
    next := Mission(Progress(st, m.p.given + if found.Some? then {found.value} else {}), found, m.batch);
  }

  /** What the workflow holds was handed out and is not completed. */
  ghost predicate Holds(m: Mission) {
    && (m.current.Some? ==> m.current.value in m.p.given && !IsDone(m.p.st, m.current.value))
    && forall n <- m.batch :: n in m.p.given && !IsDone(m.p.st, n)
  }

  lemma {:induction false} EligibleOnesMeaning(deps: Deps, st: Statuses, ids: seq<string>)
    ensures forall n :: n in EligibleOnes(deps, st, ids) <==> n in ids && Eligible(deps, st, n)
  {
    if ids != [] {
      EligibleOnesMeaning(deps, st, ids[1..]);
      assert forall n :: n in ids <==> n == ids[0] || n in ids[1..];
    }
  }

  lemma {:induction false} OnlyInMeaning(ids: seq<string>, s: set<string>)
    ensures forall n :: n in OnlyIn(ids, s) <==> n in ids && n in s
  {
    if ids != [] {
      OnlyInMeaning(ids[1..], s);
      assert forall n :: n in ids <==> n == ids[0] || n in ids[1..];
    }
  }

  /** A task is eligible when it is READY and all it depends on is COMPLETED. */
  lemma EligibleExactly(deps: Deps, st: Statuses, n: string)
    ensures Eligible(deps, st, n) <==>
      n in deps && n in st && st[n] == ReadyStatus && forall i :: 0 <= i < |deps[n]| ==> deps[n][i] in st && st[deps[n][i]] == Completed
  {
    if n in deps && Eligible(deps, st, n) {
      forall i | 0 <= i < |deps[n]| ensures deps[n][i] in st && st[deps[n][i]] == Completed { assert IsDone(st, deps[n][i]); }
    }
  }

  /** A task that could join a batch: read-only, and eligible or the current one. */
  predicate MayJoin(plan: Plan, m: Mission, readonly: set<string>, n: string) {
    n in readonly && ((n in plan.Ids() && Eligible(plan.deps, m.p.st, n)) || m.current == Some(n))
  }

  /** A BATCH holds only tasks that may join, all of them if there is room, and
      otherwise as many as there is room for. */
  lemma BatchExactly(plan: Plan, m: Mission, readonly: set<string>, limit: nat)
    ensures var batch := Batch(plan, m, readonly, limit);
      && |batch| <= limit && (forall n <- batch :: MayJoin(plan, m, readonly, n))
      && (|batch| < limit ==> forall n :: MayJoin(plan, m, readonly, n) ==> n in batch)
  {
    var eligible := EligibleOnes(plan.deps, m.p.st, plan.Ids());
    EligibleOnesMeaning(plan.deps, m.p.st, plan.Ids());
    var all := if m.current.Some? && m.current.value !in eligible then [m.current.value] + eligible else eligible;
    OnlyInMeaning(all, readonly);
    assert forall n :: n in all <==> n in eligible || m.current == Some(n);
    var some := OnlyIn(all, readonly);
    assert forall n :: n in some <==> MayJoin(plan, m, readonly, n);
    forall n | n in Batch(plan, m, readonly, limit) ensures n in some {}
  }

  /** WHAT THE SCHEDULER DOES: nothing without a plan or with work at hand that no batch
      may take; a batch where there is one and workers are left for it; otherwise the
      next eligible task, marked ACTIVE. */
  lemma ScheduledExactly(plan: Plan, m: Mission, readonly: set<string>, limit: nat, room: bool)
    requires m.batch == []
    ensures var next := Scheduled(plan, m, readonly, limit, room);
      var batch := Batch(plan, m, readonly, limit);
      var busy := m.current.Some? && (limit <= 1 || m.current.value !in readonly);
      if plan.steps == [] then next == Mission(m.p, None, [])
      else if busy then next == m
      else if limit > 1 && batch != [] then
        && (!room ==> next == Mission(m.p, None, []))
        && (room ==>
              && next.batch == batch && next.current == Some(batch[0]) && next.p.given == m.p.given + (set n | n in batch)
              && next.p.st.Keys == m.p.st.Keys + (set n | n in batch)
              && forall n <- next.p.st :: next.p.st[n] == if n in batch then Active else m.p.st[n])
      else
        && next.batch == []
        && (next.current.None? ==> next.p == m.p && forall n <- plan.Ids() :: !Eligible(plan.deps, m.p.st, n))
        && (next.current.Some? ==>
              var n := next.current.value;
              n in plan.Ids() && Eligible(plan.deps, m.p.st, n) && next.p == Progress(m.p.st[n := Active], m.p.given + {n}))
  {
    MarkedActiveExactly(m.p.st, Batch(plan, m, readonly, limit));
  }

  lemma {:induction false} MarkedActiveExactly(st: Statuses, batch: seq<string>)
    ensures var t := MarkedActive(st, batch);
      && t.Keys == st.Keys + (set n | n in batch)
      && forall n <- t :: t[n] == if n in batch then Active else st[n]
    decreases |batch|
  {
    if batch != [] { MarkedActiveExactly(st[batch[0] := Active], batch[1..]); }
  }

  lemma {:induction false} MarkedEndedExactly(st: Statuses, batch: seq<string>, ended: map<string, bool>)
    ensures var t := MarkedEnded(st, batch, ended);
      && t.Keys == st.Keys + (set n | n in batch && n in ended)
      && forall n <- t :: t[n] == if n in batch && n in ended then (if ended[n] then Completed else Failed) else st[n]
    decreases |batch|
  {
    if batch != [] {
      var n := batch[0];
      MarkedEndedExactly(if n in ended then st[n := if ended[n] then Completed else Failed] else st, batch[1..], ended);
    }
  }

  /** THE OTHER NODES: a finished batch marks each worker that ended by how it did and
      releases what waited for it; a failed worker fails its task; letting go drops the
      current task; and while a batch is pending only its end does anything. */
  lemma NodesExactly(plan: Plan, m: Mission, ended: map<string, bool>, room: bool)
    ensures var next := Enter(plan, m, FansOut(ended, room));
      && next.current == None && next.batch == [] && next.p.given == m.p.given
      && (m.batch == [] || !room ==> next.p == m.p)
      && (m.batch != [] && room ==>
            exists t: Statuses :: next.p.st == Unlocked(plan.deps, t) && t.Keys == m.p.st.Keys + (set n | n in m.batch && n in ended)
              && forall n <- t :: t[n] == if n in m.batch && n in ended then (if ended[n] then Completed else Failed) else m.p.st[n])
    ensures forall node: Node :: m.batch != [] && !node.FansOut? ==> Enter(plan, m, node) == m
    ensures m.batch == [] ==>
      && Enter(plan, m, WorkerFails) == (if m.current.None? then m else Mission(Progress(m.p.st[m.current.value := Failed], m.p.given), m.current, []))
      && Enter(plan, m, LetsGo) == Mission(m.p, None, [])
      && Enter(plan, m, ValidatesPlan) == if plan.steps == [] then m else TakeNext(plan, m, true)
    ensures plan.Ids() == if |plan.steps| > 0 then plan.steps else plan.order
  {
    MarkedEndedExactly(m.p.st, m.batch, ended);
  }

  predicate Startable(deps: Deps, p: Progress, n: string) { !IsDone(p.st, n) && (n in p.given || Eligible(deps, p.st, n)) }

  lemma BatchMeaning(plan: Plan, m: Mission, readonly: set<string>, limit: nat)
    requires Holds(m)
    ensures forall n <- Batch(plan, m, readonly, limit) :: Startable(plan.deps, m.p, n)
  {
    var eligible := EligibleOnes(plan.deps, m.p.st, plan.Ids());
    EligibleOnesMeaning(plan.deps, m.p.st, plan.Ids());
    var all := if m.current.Some? && m.current.value !in eligible then [m.current.value] + eligible else eligible;
    OnlyInMeaning(all, readonly);
    forall n | n in Batch(plan, m, readonly, limit) ensures Startable(plan.deps, m.p, n) {
      assert n in all;
      if n in eligible { assert Eligible(plan.deps, m.p.st, n); }
    }
  }

  lemma StartKeepsStartable(deps: Deps, p: Progress, n: string, e: Event)
    requires Startable(deps, p, n) && e == (if n in p.given then Moves(n, Active) else Hands(n, true))
    ensures var q := Apply(deps, p, e);
      && q == Progress(p.st[n := Active], p.given + {n})
      && forall k :: Startable(deps, p, k) ==> Startable(deps, q, k)
  {
    var q := Apply(deps, p, e);
    forall k | Startable(deps, p, k) ensures Startable(deps, q, k) {
      if k != n && k !in p.given { assert forall d <- deps[k] :: IsDone(q.st, d); }
    }
  }

  lemma {:induction false} BatchIsARun(deps: Deps, p: Progress, batch: seq<string>) returns (es: seq<Event>)
    requires forall n <- batch :: Startable(deps, p, n)
    ensures Run(deps, p, es) == Progress(MarkedActive(p.st, batch), p.given + set n | n in batch)
    ensures forall n <- batch :: !IsDone(MarkedActive(p.st, batch), n)
    ensures forall n :: !IsDone(p.st, n) ==> !IsDone(MarkedActive(p.st, batch), n)
    decreases |batch|
  {
    es := [];
    if batch != [] {
      var n := batch[0];
      var e := if n in p.given then Moves(n, Active) else Hands(n, true);
      StartKeepsStartable(deps, p, n, e);
      var q := Apply(deps, p, e);
      var rest := BatchIsARun(deps, q, batch[1..]);
      es := [e] + rest;
      assert es[1..] == rest;
      assert (p.given + {n}) + (set k | k in batch[1..]) == p.given + set k | k in batch;
    }
  }

  lemma {:induction false} EndsAreARun(deps: Deps, p: Progress, batch: seq<string>, ended: map<string, bool>) returns (es: seq<Event>)
    requires forall n <- batch :: n in p.given && (IsDone(p.st, n) ==> n in ended && ended[n])
    ensures Run(deps, p, es) == p.(st := MarkedEnded(p.st, batch, ended))
    decreases |batch|
  {
    es := [];
    if batch != [] {
      var n := batch[0];
      if n in ended {
        var e := Moves(n, if ended[n] then Completed else Failed);
        var q := Apply(deps, p, e);
        assert q == p.(st := p.st[n := e.to]);
        var rest := EndsAreARun(deps, q, batch[1..], ended);
        es := [e] + rest;
        assert es[1..] == rest;
      } else {
        es := EndsAreARun(deps, p, batch[1..], ended);
      }
    }
  }

  /** Taking the next task is one handing out, or nothing. */
  lemma TakeNextIsARun(plan: Plan, m: Mission, active: bool) returns (es: seq<Event>)
    requires Holds(m) && m.batch == []
    ensures Run(plan.deps, m.p, es) == TakeNext(plan, m, active).p && Holds(TakeNext(plan, m, active))
  {
    var found := NextEligible(plan.deps, m.p.st, plan.Ids());
    es := [];
    if found.Some? {
      es := [Hands(found.value, active)];
      RunOne(plan.deps, m.p, es[0]);
    }
  }

  lemma AdvancedIsARun(plan: Plan, m: Mission, ok: bool, retries: bool) returns (es: seq<Event>)
    requires Holds(m) && m.batch == []
    ensures Run(plan.deps, m.p, es) == Advanced(plan, m, ok, retries).p && Holds(Advanced(plan, m, ok, retries))
  {
    var to := if ok then Completed else Failed;
    var mark := if m.current.Some? then [Moves(m.current.value, to)] else [];
    var p := Run(plan.deps, m.p, mark);
    if m.current.Some? { RunOne(plan.deps, m.p, mark[0]); }
    assert p == m.p.(st := if m.current.Some? then m.p.st[m.current.value := to] else m.p.st);
    RunOne(plan.deps, p, Unlocks);
    RunConcat(plan.deps, m.p, mark, [Unlocks]);
    es := mark + [Unlocks];
    var released := m.(p := Apply(plan.deps, p, Unlocks));
    if !(m.current.Some? && !ok && retries) {
      var free := released.(current := None);
      var next := TakeNextIsARun(plan, free, false);
      assert TakeNext(plan, free, false) == TakeNext(plan, released, false);
      RunConcat(plan.deps, m.p, es, next);
      es := es + next;
    }
  }

  lemma FanOutIsARun(plan: Plan, m: Mission, ended: map<string, bool>) returns (es: seq<Event>)
    requires Holds(m)
    ensures Run(plan.deps, m.p, es) == m.p.(st := Unlocked(plan.deps, MarkedEnded(m.p.st, m.batch, ended)))
  {
    var ends := EndsAreARun(plan.deps, m.p, m.batch, ended);
    RunConcat(plan.deps, m.p, ends, [Unlocks]);
    RunOne(plan.deps, Run(plan.deps, m.p, ends), Unlocks);
    es := ends + [Unlocks];
  }

  lemma ScheduledIsARun(plan: Plan, m: Mission, readonly: set<string>, limit: nat, room: bool) returns (es: seq<Event>)
    requires Holds(m) && m.batch == []
    ensures var next := Scheduled(plan, m, readonly, limit, room); Run(plan.deps, m.p, es) == next.p && Holds(next)
  {
    es := [];
    if plan.steps != [] && !(m.current.Some? && (limit <= 1 || m.current.value !in readonly)) {
      var batch := Batch(plan, m, readonly, limit);
      if limit <= 1 || batch == [] {
        es := TakeNextIsARun(plan, m, true);
      } else if room {
        BatchMeaning(plan, m, readonly, limit);
        es := BatchIsARun(plan.deps, m.p, batch);
      }
    }
  }

  /** EVERY NODE of the graph moves the statuses as some run does, and what it then
      holds is never completed; so nothing it marks is completed twice or undone. */
  lemma NodeIsARun(plan: Plan, m: Mission, node: Node) returns (es: seq<Event>)
    requires Holds(m)
    ensures Run(plan.deps, m.p, es) == Enter(plan, m, node).p && Holds(Enter(plan, m, node))
  {
    es := [];
    if node.FansOut? {
      if m.batch != [] && node.room { es := FanOutIsARun(plan, m, node.ended); }
    } else if m.batch == [] {
      match node {
        case ValidatesPlan => if plan.steps != [] { es := TakeNextIsARun(plan, m, true); }
        case Schedules(readonly, limit, room) => es := ScheduledIsARun(plan, m, readonly, limit, room);
        case WorkerFails =>
          if m.current.Some? {
            es := [Moves(m.current.value, Failed)];
            RunOne(plan.deps, m.p, es[0]);
          }
        case Advances(ok, retries) => es := AdvancedIsARun(plan, m, ok, retries);
        case _ =>
      }
    }
  }

  /** THE WHOLE WORKFLOW is such a run, whatever order its nodes come in ... */
  lemma {:induction false} VisitIsARun(plan: Plan, m: Mission, nodes: seq<Node>) returns (es: seq<Event>)
    requires Holds(m)
    ensures Run(plan.deps, m.p, es) == Visit(plan, m, nodes).p && Holds(Visit(plan, m, nodes))
    decreases |nodes|
  {
    es := [];
    if nodes != [] {
      var first := NodeIsARun(plan, m, nodes[0]);
      var rest := VisitIsARun(plan, Enter(plan, m, nodes[0]), nodes[1..]);
      RunConcat(plan.deps, m.p, first, rest);
      es := first + rest;
    }
  }

  /** ... so from a fresh status map its COMPLETED tasks are always closed under
      dependencies, and it works on a task only when they are all completed. */
  lemma VisitKeepsOrder(plan: Plan, st: Statuses, nodes: seq<Node>, n: string)
    requires forall k <- st :: st[k] == ReadyStatus || st[k] == Pending
    ensures var m := Visit(plan, Mission(Progress(st, {}), None, []), nodes);
      && (IsDone(m.p.st, n) || m.current == Some(n) || n in m.batch ==> DepsDone(plan.deps, m.p.st, n))
      && (m.current == Some(n) || n in m.batch ==> !IsDone(m.p.st, n))
  {
    var m := Mission(Progress(st, {}), None, []);
    var es := VisitIsARun(plan, m, nodes);
    FreshIsOrdered(plan.deps, st, es, n);
  }

  /** Among them the ordinary ones: the current task is completed or failed from
      whatever status it has, kept for its retry, and followed by one that is still
      READY when its own turn to complete comes. */
  lemma AdvancedMeaning(plan: Plan, m: Mission, ok: bool, retries: bool)
    requires m.batch == [] && Holds(m)
    ensures var next := Enter(plan, m, Advances(ok, retries));
      && (m.current.Some? ==>
            && m.current.value in next.p.st && next.p.st[m.current.value] == (if ok then Completed else Failed)
            && (!ok && retries ==> next.current == m.current))
      && (m.current.None? || ok || !retries ==>
            && (next.current.Some? ==> Eligible(plan.deps, next.p.st, next.current.value) && next.p.given == m.p.given + {next.current.value})
            && (next.current.None? ==> forall n <- plan.Ids() :: !Eligible(plan.deps, next.p.st, n)))
      && (forall n <- m.p.st :: m.current != Some(n) && m.p.st[n] != Pending ==> next.p.st[n] == m.p.st[n])
      && (forall n <- m.p.st :: m.current != Some(n) && m.p.st[n] == Pending ==>
            next.p.st[n] == if DepsDone(plan.deps, next.p.st, n) then ReadyStatus else Pending)
  {
    var marked := if m.current.Some? then m.p.st[m.current.value := if ok then Completed else Failed] else m.p.st;
    assert forall d :: IsDone(Unlocked(plan.deps, marked), d) <==> IsDone(marked, d);
  }
}
