/** Bounded depth-first deliberation: predict, evaluate, expand, propagate values
    upwards, and select an action.  Branching `b` and depth are arbitrary. */
module Deliberation {
  import opened Common

  // ---------------------------------------------------------------- data ---

  type Facts = map<string, string>

  /** A node id: "root.0.1" is the path [0, 1], and the root is []. */
  type Path = seq<int>

  datatype Candidate = Candidate(id: string)
  datatype Prediction = Prediction(id: string, world: Facts, confidence: real)
  datatype Evaluation = Evaluation(id: string, score: real, risk: real)

  /** The model-backed services.  Each node is visited once, so their answers may
      depend on the node, whatever their inner state; `None` is a raised error.
      `propose` pairs each proposed candidate with the monitor's verdict. */
  datatype Models = Models(
    predict: (Path, Facts, Candidate) -> Option<Prediction>,
    evaluate: (Path, Facts, Candidate, Prediction) -> Option<Evaluation>,
    propose: (Path, Facts) -> Option<seq<(Candidate, bool)>>)

  /** The adaptive policy's thresholds; without one nothing is good enough. */
  datatype StopRule = NeverStop | StopAt(score: real, confidence: real)

  datatype NodeStatus = Expanded | Terminal | Failed

  datatype SearchNode = SearchNode(
    id: Path, parent: Option<Path>, depth: nat, candidate: Option<string>,
    prediction: Option<string>, evaluation: Option<string>, children: seq<Path>,
    terminal: bool, status: NodeStatus,
    value: Option<real>, score: Option<real>, confidence: Option<real>, risk: Option<real>)

  /** What a visit found: a failure (perhaps after a prediction) or a visited
      candidate with the branches below it. */
  datatype Tree =
    | Broken(candidate: Candidate, predicted: Option<Prediction>)
    | Visited(candidate: Candidate, prediction: Prediction, eval: Evaluation, kids: seq<Tree>)

  // -------------------------------------------------------- specification ---

  function Accepted(verdicts: seq<(Candidate, bool)>): seq<Candidate> {
    if verdicts == [] then []
    else
      var n := |verdicts| - 1;
      if verdicts[n].1 then Accepted(verdicts[..n]) + [verdicts[n].0] else Accepted(verdicts[..n])
  }

  function Take<T>(xs: seq<T>, n: nat): (r: seq<T>)
    ensures |r| <= n && r <= xs
  {
    if |xs| <= n then xs else xs[..n]
  }

  function AcceptedChildren(m: Models, b: nat, path: Path, world: Facts): (r: seq<Candidate>)
    ensures |r| <= b
  {
    match m.propose(path, world)
    case None => []
    case Some(verdicts) => Take(Accepted(verdicts), b)
  }

  predicate GoodEnough(stop: StopRule, p: Prediction, e: Evaluation) {
    stop.StopAt? && e.score >= stop.score && p.confidence >= stop.confidence
  }

  function Grow(m: Models, b: nat, maxDepth: nat, stop: StopRule, path: Path, world: Facts, c: Candidate): Tree
    requires |path| <= maxDepth + 1
    decreases maxDepth + 1 - |path|, 0
  {
    match m.predict(path, world, c)
    case None => Broken(c, None)
    case Some(p) =>
      match m.evaluate(path, world, c, p)
      case None => Broken(c, Some(p))
      case Some(e) =>
        Visited(c, p, e,
          if |path| < maxDepth && !GoodEnough(stop, p, e)
          then GrowAll(m, b, maxDepth, stop, path, p.world, AcceptedChildren(m, b, path, p.world))
          else [])
  }

  function GrowAll(m: Models, b: nat, maxDepth: nat, stop: StopRule, path: Path, world: Facts, cs: seq<Candidate>): (r: seq<Tree>)
    requires |path| <= maxDepth
    ensures |r| == |cs|
    decreases maxDepth - |path|, |cs| + 1
  {
    if cs == [] then []
    else
      var n := |cs| - 1;
      GrowAll(m, b, maxDepth, stop, path, world, cs[..n]) + [Grow(m, b, maxDepth, stop, path + [n], world, cs[n])]
  }

  function Max(xs: seq<real>): Option<real> {
    if xs == [] then None
    else
      var n := |xs| - 1;
      match Max(xs[..n]) case None => Some(xs[n]) case Some(v) => Some(if xs[n] > v then xs[n] else v)
  }

  /** The propagated value; a failed branch has none. */
  function Value(t: Tree): Option<real>
    decreases t, 0
  {
    if t.Broken? then None
    else match Max(Values(t.kids)) case None => Some(t.eval.score) case Some(v) => Some(v)
  }

  function Values(ts: seq<Tree>): seq<real>
    decreases ts, 1
  {
    if ts == [] then []
    else
      var n := |ts| - 1;
      Values(ts[..n]) + match Value(ts[n]) case None => [] case Some(v) => [v]
  }

  function ChildIds(path: Path, n: nat): (r: seq<Path>)
    ensures |r| == n && forall i :: 0 <= i < n ==> r[i] == path + [i]
  {
    if n == 0 then [] else ChildIds(path, n - 1) + [path + [n - 1]]
  }

  function Own(t: Tree, path: Path): SearchNode
    requires path != []
  {
    var parent := Some(path[..|path| - 1]);
    if t.Broken? then
      SearchNode(path, parent, |path|, Some(t.candidate.id),
        if t.predicted.Some? then Some(t.predicted.value.id) else None, None, [], true, Failed, None, None, None, None)
    else
      var leaf := Values(t.kids) == [];
      SearchNode(path, parent, |path|, Some(t.candidate.id), Some(t.prediction.id), Some(t.eval.id),
        ChildIds(path, |t.kids|), leaf, if leaf then Terminal else Expanded,
        Value(t), Some(t.eval.score), Some(t.prediction.confidence), Some(t.eval.risk))
  }

  /** The nodes a visit appends, in order: those below first, its own last. */
  function Flatten(t: Tree, path: Path): seq<SearchNode>
    requires path != []
    decreases t, 0
  {
    (if t.Broken? then [] else FlattenAll(t.kids, path)) + [Own(t, path)]
  }

  function FlattenAll(ts: seq<Tree>, path: Path): seq<SearchNode>
    decreases ts, 1
  {
    if ts == [] then []
    else
      var n := |ts| - 1;
      FlattenAll(ts[..n], path) + Flatten(ts[n], path + [n])
  }

  function RootNode(ts: seq<Tree>): SearchNode {
    SearchNode([], None, 0, None, None, None, ChildIds([], |ts|), false, Expanded, Max(Values(ts)), None, None, None)
  }

  function Nodes(ts: seq<Tree>): seq<SearchNode> { [RootNode(ts)] + FlattenAll(ts, []) }

  // ------------------------------------------------- what a search explores ---

  /** `cs` are the proposals at the places `at`, all accepted, in their order. */
  ghost predicate Picks(verdicts: seq<(Candidate, bool)>, cs: seq<Candidate>, at: seq<nat>) {
    && |at| == |cs|
    && (forall i :: 0 <= i < |at| ==> at[i] < |verdicts| && verdicts[at[i]].1 && verdicts[at[i]].0 == cs[i])
    && (forall i, j :: 0 <= i < j < |at| ==> at[i] < at[j])
  }

  lemma PicksMore(verdicts: seq<(Candidate, bool)>, cs: seq<Candidate>, at: seq<nat>)
    requires verdicts != [] && Picks(verdicts[..|verdicts| - 1], cs, at)
    ensures var n := |verdicts| - 1;
      Picks(verdicts, cs, at) && (verdicts[n].1 ==> Picks(verdicts, cs + [verdicts[n].0], at + [n]))
  {
  }

  lemma {:induction false} AcceptedPlaces(verdicts: seq<(Candidate, bool)>) returns (at: seq<nat>)
    ensures Picks(verdicts, Accepted(verdicts), at)
    ensures forall p :: 0 <= p < |verdicts| && verdicts[p].1 ==> p in at
  {
    at := [];
    if verdicts != [] {
      var n := |verdicts| - 1;
      var before := AcceptedPlaces(verdicts[..n]);
      PicksMore(verdicts, Accepted(verdicts[..n]), before);
      at := if verdicts[n].1 then before + [n] else before;
      forall p | 0 <= p < |verdicts| && verdicts[p].1 ensures p in at {
        assert p < n ==> verdicts[..n][p] == verdicts[p];
        assert p in at <==> p in before || (p == n && verdicts[n].1);
      }
    }
  }

  /** THE CHILDREN ARE THE FIRST ACCEPTED PROPOSALS, in order: none that the monitor
      rejected, none left out before one that is kept, and as many as the branching
      allows. */
  lemma ChildrenAreAccepted(m: Models, b: nat, path: Path, world: Facts) returns (at: seq<nat>)
    ensures var cs := AcceptedChildren(m, b, path, world);
      match m.propose(path, world)
      case None => cs == []
      case Some(verdicts) =>
        && Picks(verdicts, cs, at) && |at| <= b
        && (forall p :: 0 <= p < |verdicts| && verdicts[p].1 && p !in at ==> |at| == b && forall q <- at :: q < p)
  {
    at := [];
    match m.propose(path, world)
    case None =>
    case Some(verdicts) =>
      var all := AcceptedPlaces(verdicts);
      at := Take(all, b);
      FirstPicks(verdicts, all, b);
  }

  lemma {:induction false} FirstPicks(verdicts: seq<(Candidate, bool)>, all: seq<nat>, b: nat)
    requires Picks(verdicts, Accepted(verdicts), all) && forall p :: 0 <= p < |verdicts| && verdicts[p].1 ==> p in all
    ensures Picks(verdicts, Take(Accepted(verdicts), b), Take(all, b))
    ensures forall p :: 0 <= p < |verdicts| && verdicts[p].1 && p !in Take(all, b) ==> |Take(all, b)| == b && forall q <- Take(all, b) :: q < p
  {
    var at := Take(all, b);
    TakeMeaning(all, b);
    TakeMeaning(Accepted(verdicts), b);
    assert forall k :: 0 <= k < |at| ==> at[k] == all[k] && at[k] in at;
    if |all| > b {
      forall p | 0 <= p < |verdicts| && verdicts[p].1 && p !in at ensures forall q <- at :: q < p {
        var i :| 0 <= i < |all| && all[i] == p;
      }
    }
  }

  lemma TakeMeaning<T>(xs: seq<T>, n: nat)
    ensures |Take(xs, n)| == if |xs| <= n then |xs| else n
    ensures forall i :: 0 <= i < |Take(xs, n)| ==> Take(xs, n)[i] == xs[i]
  {
  }

  lemma {:induction false} GrownAt(m: Models, b: nat, maxDepth: nat, stop: StopRule, path: Path, world: Facts, cs: seq<Candidate>, i: nat)
    requires |path| <= maxDepth && i < |cs|
    ensures GrowAll(m, b, maxDepth, stop, path, world, cs)[i] == Grow(m, b, maxDepth, stop, path + [i], world, cs[i])
    decreases |cs|
  {
    if i < |cs| - 1 { GrownAt(m, b, maxDepth, stop, path, world, cs[..|cs| - 1], i); }
  }

  /** WHAT A VISIT FINDS: the models' own answers for this candidate in this world; and
      below it, exactly unless the depth is used up or the answers are good enough, one
      branch per accepted child in the predicted world. */
  lemma VisitExactly(m: Models, b: nat, maxDepth: nat, stop: StopRule, path: Path, world: Facts, c: Candidate)
    requires |path| <= maxDepth + 1
    ensures var t := Grow(m, b, maxDepth, stop, path, world, c);
      match m.predict(path, world, c)
      case None => t == Broken(c, None)
      case Some(p) =>
        match m.evaluate(path, world, c, p)
        case None => t == Broken(c, Some(p))
        case Some(e) =>
          var enough := stop.StopAt? && e.score >= stop.score && p.confidence >= stop.confidence;
          && t.Visited? && t.candidate == c && t.prediction == p && t.eval == e
          && (if |path| >= maxDepth || enough then t.kids == []
              else
                var cs := AcceptedChildren(m, b, path, p.world);
                |t.kids| == |cs| && forall i :: 0 <= i < |cs| ==> t.kids[i] == Grow(m, b, maxDepth, stop, path + [i], p.world, cs[i]))
  {
    if |path| < maxDepth {
      match m.predict(path, world, c)
      case None =>
      case Some(p) =>
        var cs := AcceptedChildren(m, b, path, p.world);
        var kids := GrowAll(m, b, maxDepth, stop, path, p.world, cs);
        forall i | 0 <= i < |cs| ensures kids[i] == Grow(m, b, maxDepth, stop, path + [i], p.world, cs[i]) {
          GrownAt(m, b, maxDepth, stop, path, p.world, cs, i);
        }
    }
  }

  /** The roots are the first of the given candidates, each visited in the real world. */
  lemma RootsExactly(m: Models, b: nat, maxDepth: nat, stop: StopRule, world: Facts, roots: seq<Candidate>, i: nat)
    ensures var ts := RootTrees(m, b, maxDepth, stop, world, roots);
      && |ts| == (if |roots| <= b then |roots| else b)
      && (i < |ts| ==> ts[i] == Grow(m, b, maxDepth, stop, [i], world, roots[i]))
  {
    TakeMeaning(roots, b);
    if i < |Take(roots, b)| {
      GrownAt(m, b, maxDepth, stop, [], world, Take(roots, b), i);
      assert [] + [i] == [i];
    }
  }

  /** WHAT A NODE SAYS: whose visit it is, what was found there, and its branches. */
  lemma NodeTells(t: Tree, path: Path)
    requires path != []
    ensures var n := Own(t, path);
      && n.id == path && n.parent == Some(path[..|path| - 1]) && n.depth == |path| && n.candidate == Some(t.candidate.id)
      && (t.Broken? ==>
            && n.status == Failed && n.terminal && n.children == []
            && n.prediction == (if t.predicted.Some? then Some(t.predicted.value.id) else None) && n.evaluation == None
            && n.value == None && n.score == None && n.confidence == None && n.risk == None)
      && (t.Visited? ==>
            && n.prediction == Some(t.prediction.id) && n.evaluation == Some(t.eval.id)
            && n.score == Some(t.eval.score) && n.confidence == Some(t.prediction.confidence) && n.risk == Some(t.eval.risk)
            && |n.children| == |t.kids| && (forall i :: 0 <= i < |t.kids| ==> n.children[i] == path + [i])
            && (n.terminal <==> n.status == Terminal) && (n.status == Expanded || n.status == Terminal)
            && (n.status == Terminal <==> forall kid <- t.kids :: kid.Broken?))
  {
    if t.Visited? { NoValuesMeansBroken(t.kids); }
  }

  lemma {:induction false} NoValuesMeansBroken(ts: seq<Tree>)
    ensures Values(ts) == [] <==> forall t <- ts :: t.Broken?
  {
    if ts != [] {
      var k := |ts| - 1;
      NoValuesMeansBroken(ts[..k]);
      assert forall t :: t in ts <==> t in ts[..k] || t == ts[k];
      assert Value(ts[k]).None? <==> ts[k].Broken?;
    }
  }

  // -------------------------------------------------------- value theorem ---

  predicate TerminalBelow(n: SearchNode, p: Path) { n.status.Terminal? && p <= n.id }

  /** `v` is the greatest evaluation score among the TERMINAL nodes below `p`. */
  ghost predicate IsMaxBelow(ns: seq<SearchNode>, p: Path, v: real) {
    && (exists n :: n in ns && TerminalBelow(n, p) && n.score == Some(v))
    && (forall n :: n in ns && TerminalBelow(n, p) ==> n.score.Some? && n.score.value <= v)
  }

  /** The claim about one value: `None` says that nothing below counts. */
  ghost predicate ValueIsMax(ns: seq<SearchNode>, p: Path, v: Option<real>) {
    match v
    case None => forall n :: n in ns ==> !TerminalBelow(n, p)
    case Some(x) => IsMaxBelow(ns, p, x)
  }

  /** A node that did not fail carries the maximum below it, a failed one nothing. */
  ghost predicate GoodValue(ns: seq<SearchNode>, n: SearchNode) {
    if n.status == Failed then n.value.None? else n.value.Some? && ValueIsMax(ns, n.id, n.value)
  }

  ghost predicate GoodValues(ns: seq<SearchNode>) { forall n :: n in ns ==> GoodValue(ns, n) }

  function Join(v: Option<real>, w: Option<real>): Option<real> {
    if v.None? then w else if w.None? then v else if w.value > v.value then w else v
  }

  lemma JoinMax(xs: seq<SearchNode>, ys: seq<SearchNode>, p: Path, v: Option<real>, w: Option<real>)
    requires ValueIsMax(xs, p, v) && ValueIsMax(ys, p, w)
    ensures ValueIsMax(xs + ys, p, Join(v, w))
  {
    var zs := xs + ys;
    assert forall n :: n in zs <==> n in xs || n in ys;
    if v.Some? {
      var n :| n in xs && TerminalBelow(n, p) && n.score == v;
      assert n in zs;
    }
    if w.Some? {
      var n :| n in ys && TerminalBelow(n, p) && n.score == w;
      assert n in zs;
    }
  }

  /** A good value stays good when nothing below the node is added. */
  lemma GoodBeside(xs: seq<SearchNode>, ys: seq<SearchNode>, n: SearchNode)
    requires GoodValue(xs, n) && forall m :: m in ys ==> !TerminalBelow(m, n.id)
    ensures GoodValue(xs + ys, n) && GoodValue(ys + xs, n)
  {
    if n.status != Failed {
      JoinMax(xs, ys, n.id, n.value, None);
      JoinMax(ys, xs, n.id, None, n.value);
    }
  }

  lemma {:induction false} BelowTree(t: Tree, path: Path)
    requires path != []
    ensures forall n :: n in Flatten(t, path) ==> path <= n.id
    decreases t, 0
  {
    if t.Visited? { BelowTrees(t.kids, path); }
  }

  predicate InBranch(n: SearchNode, path: Path, lo: nat, hi: nat) {
    path <= n.id && |n.id| > |path| && lo <= n.id[|path|] < hi
  }

  /** Nodes of a forest sit below one of its branches. */
  lemma {:induction false} BelowTrees(ts: seq<Tree>, path: Path)
    ensures forall n :: n in FlattenAll(ts, path) ==> InBranch(n, path, 0, |ts|)
    decreases ts, 1
  {
    if ts != [] {
      var k := |ts| - 1;
      BelowTrees(ts[..k], path);
      BelowTree(ts[k], path + [k]);
      forall n | n in Flatten(ts[k], path + [k]) ensures InBranch(n, path, k, k + 1) { UnderBranch(n.id, path, k); }
    }
  }

  lemma UnderBranch(id: Path, path: Path, k: nat)
    requires path + [k] <= id
    ensures path <= id && |id| > |path| && id[|path|] == k
  {
    assert (path + [k])[|path|] == k;
    assert path == id[..|path|] by { assert (path + [k])[..|path|] == path; }
  }

  /** A node appended after everything below it: a leaf brings its own score, an
      inner node repeats the maximum already there. */
  lemma AppendOwn(below: seq<SearchNode>, own: SearchNode, v: Option<real>)
    requires ValueIsMax(below, own.id, v) && GoodValues(below)
    requires forall n :: n in below ==> |n.id| > |own.id|
    requires if v.None? then own.status.Terminal? && own.score.Some? && own.value == own.score else own.status.Expanded? && own.value == v
    ensures own.value.Some? && ValueIsMax(below + [own], own.id, own.value) && GoodValues(below + [own])
  {
    if v.None? { assert own in [own] && TerminalBelow(own, own.id); }
    JoinMax(below, [own], own.id, v, if v.None? then own.value else None);
    GoodUnderOwn(below, own);
  }

  lemma GoodUnderOwn(below: seq<SearchNode>, own: SearchNode)
    requires GoodValues(below) && forall n :: n in below ==> |n.id| > |own.id|
    ensures forall n :: n in below ==> GoodValue(below + [own], n)
  {
    forall n | n in below ensures GoodValue(below + [own], n) {
      assert !TerminalBelow(own, n.id);
      GoodBeside(below, [own], n);
    }
  }

  /** One more branch `k` beside those before it. */
  lemma AppendBranch(left: seq<SearchNode>, right: seq<SearchNode>, path: Path, k: nat, v: Option<real>, w: Option<real>)
    requires ValueIsMax(left, path, v) && GoodValues(left)
    requires ValueIsMax(right, path + [k], w) && GoodValues(right)
    requires forall n :: n in left ==> InBranch(n, path, 0, k)
    requires forall n :: n in right ==> path + [k] <= n.id
    ensures ValueIsMax(left + right, path, Join(v, w)) && GoodValues(left + right)
  {
    forall n | n in right ensures InBranch(n, path, k, k + 1) && (TerminalBelow(n, path) <==> TerminalBelow(n, path + [k])) {
      UnderBranch(n.id, path, k);
    }
    assert ValueIsMax(right, path, w);
    JoinMax(left, right, path, v, w);
    forall n | n in left ensures GoodValue(left + right, n) {
      forall m | m in right ensures !TerminalBelow(m, n.id) { Apart(m.id, n.id, path); }
      GoodBeside(left, right, n);
    }
    forall n | n in right ensures GoodValue(left + right, n) {
      forall m | m in left ensures !TerminalBelow(m, n.id) { Apart(m.id, n.id, path); }
      GoodBeside(right, left, n);
    }
  }

  lemma Apart(a: Path, b: Path, path: Path)
    requires |a| > |path| && |b| > |path| && a[|path|] != b[|path|]
    ensures !(a <= b) && !(b <= a)
  {
  }

  lemma {:induction false} TreeValue(t: Tree, path: Path)
    requires path != []
    ensures ValueIsMax(Flatten(t, path), path, Value(t)) && GoodValues(Flatten(t, path))
    decreases t, 0
  {
    var own := Own(t, path);
    if t.Broken? {
      assert Flatten(t, path) == [own];
    } else {
      TreesValue(t.kids, path);
      BelowTrees(t.kids, path);
      MaxNone(Values(t.kids));
      AppendOwn(FlattenAll(t.kids, path), own, Max(Values(t.kids)));
    }
  }

  lemma {:induction false} TreesValue(ts: seq<Tree>, path: Path)
    ensures ValueIsMax(FlattenAll(ts, path), path, Max(Values(ts))) && GoodValues(FlattenAll(ts, path))
    decreases ts, 1
  {
    if ts != [] {
      var k := |ts| - 1;
      TreesValue(ts[..k], path);
      TreeValue(ts[k], path + [k]);
      BelowTree(ts[k], path + [k]);
      BelowTrees(ts[..k], path);
      AppendBranch(FlattenAll(ts[..k], path), Flatten(ts[k], path + [k]), path, k, Max(Values(ts[..k])), Value(ts[k]));
      MaxOfAll(ts);
    }
  }

  lemma MaxOfAll(ts: seq<Tree>)
    requires ts != []
    ensures Max(Values(ts)) == Join(Max(Values(ts[..|ts| - 1])), Value(ts[|ts| - 1]))
  {
    var k := |ts| - 1;
    var xs := Values(ts[..k]);
    match Value(ts[k]) {
      case None => assert Values(ts) == xs;
      case Some(w) => assert Values(ts) == xs + [w] && (xs + [w])[..|xs|] == xs;
    }
  }

  lemma {:induction false} MaxNone(xs: seq<real>)
    ensures Max(xs).None? <==> xs == []
  {
  }

  /** THE VALUE THEOREM, for the whole node list of any search: a node that did not
      fail carries the maximum evaluation score over the TERMINAL nodes in its
      subtree; failed nodes carry nothing and contribute nothing; and the root has
      a value exactly when some root candidate did not fail. */
  lemma ValueTheorem(ts: seq<Tree>)
    ensures var ns := Nodes(ts);
      && ns[0].id == [] && ValueIsMax(ns, [], ns[0].value)
      && (forall n :: n in ns[1..] ==> GoodValue(ns, n))
      && (ns[0].value.Some? <==> exists t <- ts :: t.Visited?)
  {
    var root, below := RootNode(ts), FlattenAll(ts, []);
    TreesValue(ts, []);
    BelowTrees(ts, []);
    JoinMax([root], below, [], None, root.value);
    forall n | n in below ensures GoodValue(Nodes(ts), n) { GoodBeside(below, [root], n); }
    RootValueExists(ts);
  }

  lemma ValueOfVisited(t: Tree)
    ensures Value(t).Some? <==> t.Visited?
  {
  }

  lemma {:induction false} SomeValue(ts: seq<Tree>, i: nat)
    requires i < |ts| && ts[i].Visited?
    ensures Values(ts) != []
    decreases |ts|
  {
    var k := |ts| - 1;
    if i < k {
      SomeValue(ts[..k], i);
    } else {
      ValueOfVisited(ts[k]);
    }
  }

  lemma {:induction false} NoValues(ts: seq<Tree>)
    requires forall i :: 0 <= i < |ts| ==> ts[i].Broken?
    ensures Values(ts) == []
    decreases |ts|
  {
    if ts != [] {
      NoValues(ts[..|ts| - 1]);
    }
  }

  lemma RootValueExists(ts: seq<Tree>)
    ensures Max(Values(ts)).Some? <==> exists t <- ts :: t.Visited?
  {
    MaxNone(Values(ts));
    if t :| t in ts && t.Visited? {
      var i :| 0 <= i < |ts| && ts[i] == t;
      SomeValue(ts, i);
    } else {
      NoValues(ts);
    }
  }

  // ------------------------------------------------------------ structure ---

  /** At most `b` branches a node and at most `d` further levels. */
  predicate Within(t: Tree, b: nat, d: nat)
    decreases t
  {
    t.Visited? ==> |t.kids| <= b && (t.kids != [] ==> d > 0 && forall k <- t.kids :: Within(k, b, d - 1))
  }

  lemma {:induction false} GrowWithin(m: Models, b: nat, maxDepth: nat, stop: StopRule, path: Path, world: Facts, c: Candidate)
    requires |path| <= maxDepth + 1
    ensures Within(Grow(m, b, maxDepth, stop, path, world, c), b, if |path| <= maxDepth then maxDepth - |path| else 0)
    decreases maxDepth + 1 - |path|, 0
  {
    var t := Grow(m, b, maxDepth, stop, path, world, c);
    if t.Visited? && t.kids != [] {
      GrowAllWithin(m, b, maxDepth, stop, path, t.prediction.world, AcceptedChildren(m, b, path, t.prediction.world));
    }
  }

  lemma {:induction false} GrowAllWithin(m: Models, b: nat, maxDepth: nat, stop: StopRule, path: Path, world: Facts, cs: seq<Candidate>)
    requires |path| <= maxDepth
    ensures forall t <- GrowAll(m, b, maxDepth, stop, path, world, cs) :: Within(t, b, if |path| < maxDepth then maxDepth - |path| - 1 else 0)
    decreases maxDepth - |path|, |cs| + 1
  {
    if cs != [] {
      var n := |cs| - 1;
      GrowAllWithin(m, b, maxDepth, stop, path, world, cs[..n]);
      GrowWithin(m, b, maxDepth, stop, path + [n], world, cs[n]);
    }
  }

  function Pow(b: nat, k: nat): nat { if k == 0 then 1 else b * Pow(b, k - 1) }

  /** 1 + b + ... + b^d */
  function PowerSum(b: nat, d: nat): nat { if d == 0 then 1 else PowerSum(b, d - 1) + Pow(b, d) }

  lemma {:induction false} PowerSumUnfolds(b: nat, d: nat)
    requires d > 0
    ensures PowerSum(b, d) == 1 + b * PowerSum(b, d - 1)
  {
    if d > 1 {
      PowerSumUnfolds(b, d - 1);
      calc {
        PowerSum(b, d);
        1 + b * PowerSum(b, d - 2) + b * Pow(b, d - 1);
        1 + b * (PowerSum(b, d - 2) + Pow(b, d - 1));
      }
    } else {
      assert Pow(b, 1) == b * Pow(b, 0) == b;
      assert PowerSum(b, 0) == 1;
    }
  }

  lemma {:induction false} PowerSumGrows(b: nat, d: nat, e: nat)
    requires d <= e
    ensures PowerSum(b, d) <= PowerSum(b, e)
  {
    if d < e { PowerSumGrows(b, d, e - 1); }
  }

  ghost predicate UniqueIds(ns: seq<SearchNode>) {
    forall i, j :: 0 <= i < j < |ns| ==> ns[i].id != ns[j].id
  }

  /** Child references resolve to nodes that name this node as their parent. */
  ghost predicate ClosedIn(n: SearchNode, ns: seq<SearchNode>) {
    forall c <- n.children :: exists m <- ns :: m.id == c && m.parent == Some(n.id)
  }

  predicate NodeShape(n: SearchNode, b: nat) {
    && n.depth == |n.id| && |n.children| <= b
    && (n.status == Failed ==> n.terminal && n.children == [])
    && (n.id != [] ==> n.parent == Some(n.id[..|n.id| - 1]) && n.candidate.Some?
                       && (n.status != Failed ==> n.evaluation.Some? && n.score.Some? && n.confidence.Some? && n.risk.Some?))
  }

  lemma JoinUnique(xs: seq<SearchNode>, ys: seq<SearchNode>)
    requires UniqueIds(xs) && UniqueIds(ys)
    requires forall m, n :: m in xs && n in ys ==> m.id != n.id
    ensures UniqueIds(xs + ys)
  {
    var zs := xs + ys;
    forall i, j | 0 <= i < j < |zs| ensures zs[i].id != zs[j].id {
      if i < |xs| <= j { assert xs[i] in xs && ys[j - |xs|] in ys; }
    }
  }

  lemma {:induction false} KidPresent(ts: seq<Tree>, path: Path, i: nat)
    requires i < |ts|
    ensures Own(ts[i], path + [i]) in FlattenAll(ts, path)
    decreases |ts|
  {
    var k := |ts| - 1;
    if i < k {
      KidPresent(ts[..k], path, i);
    }
  }

  lemma {:induction false} TreeUnique(t: Tree, path: Path)
    requires path != []
    ensures UniqueIds(Flatten(t, path))
    decreases t, 0
  {
    if t.Visited? {
      TreesUnique(t.kids, path);
      BelowTrees(t.kids, path);
      JoinUnique(FlattenAll(t.kids, path), [Own(t, path)]);
    }
  }

  lemma {:induction false} TreesUnique(ts: seq<Tree>, path: Path)
    ensures UniqueIds(FlattenAll(ts, path))
    decreases ts, 1
  {
    if ts != [] {
      var k := |ts| - 1;
      TreesUnique(ts[..k], path);
      TreeUnique(ts[k], path + [k]);
      BelowTrees(ts[..k], path);
      BelowTree(ts[k], path + [k]);
      forall m, n | m in FlattenAll(ts[..k], path) && n in Flatten(ts[k], path + [k]) ensures m.id != n.id {
        UnderBranch(n.id, path, k);
      }
      JoinUnique(FlattenAll(ts[..k], path), Flatten(ts[k], path + [k]));
    }
  }

  /** Bounded, well-shaped and closed, node by node. */
  ghost predicate ShapedList(ns: seq<SearchNode>, b: nat, deepest: nat) {
    forall n :: n in ns ==> NodeShape(n, b) && n.depth <= deepest && ClosedIn(n, ns)
  }

  lemma ShapedJoin(xs: seq<SearchNode>, ys: seq<SearchNode>, b: nat, deepest: nat)
    requires ShapedList(xs, b, deepest) && (forall n :: n in ys ==> NodeShape(n, b) && n.depth <= deepest && ClosedIn(n, xs + ys))
    ensures ShapedList(xs + ys, b, deepest)
  {
    forall n | n in xs ensures ClosedIn(n, xs + ys) {}
  }

  lemma {:induction false} TreeShaped(t: Tree, path: Path, b: nat, d: nat)
    requires path != [] && Within(t, b, d)
    ensures ShapedList(Flatten(t, path), b, |path| + d)
    decreases t, 0
  {
    var own := Own(t, path);
    if t.Broken? || t.kids == [] {
      assert Flatten(t, path) == [own];
    } else {
      TreesShaped(t.kids, path, b, d - 1);
      OwnIsClosed(t, path);
      ShapedJoin(FlattenAll(t.kids, path), [own], b, |path| + d);
    }
  }

  lemma {:induction false} TreesShaped(ts: seq<Tree>, path: Path, b: nat, d: nat)
    requires forall t <- ts :: Within(t, b, d)
    ensures ShapedList(FlattenAll(ts, path), b, |path| + 1 + d)
    decreases ts, 1
  {
    if ts != [] {
      var k := |ts| - 1;
      TreesShaped(ts[..k], path, b, d);
      TreeShaped(ts[k], path + [k], b, d);
      ShapedConcat(FlattenAll(ts[..k], path), Flatten(ts[k], path + [k]), b, |path| + 1 + d);
    }
  }

  lemma {:induction false} TreeSize(t: Tree, path: Path, b: nat, d: nat)
    requires path != [] && Within(t, b, d)
    ensures |Flatten(t, path)| <= PowerSum(b, d)
    decreases t, 0
  {
    PowerSumGrows(b, 0, d);
    if t.Visited? && t.kids != [] {
      TreesSize(t.kids, path, b, d - 1);
      PowerSumUnfolds(b, d);
      Scale(|t.kids|, b, PowerSum(b, d - 1));
    }
  }

  lemma {:induction false} TreesSize(ts: seq<Tree>, path: Path, b: nat, d: nat)
    requires forall t <- ts :: Within(t, b, d)
    ensures |FlattenAll(ts, path)| <= |ts| * PowerSum(b, d)
    decreases ts, 1
  {
    if ts != [] {
      var k := |ts| - 1;
      TreesSize(ts[..k], path, b, d);
      TreeSize(ts[k], path + [k], b, d);
      Distribute(k, PowerSum(b, d));
    }
  }

  lemma OwnIsClosed(t: Tree, path: Path)
    requires path != [] && t.Visited?
    ensures ClosedIn(Own(t, path), FlattenAll(t.kids, path) + [Own(t, path)])
  {
    var own := Own(t, path);
    forall c <- own.children ensures exists m <- FlattenAll(t.kids, path) + [own] :: m.id == c && m.parent == Some(path) {
      var i :| 0 <= i < |t.kids| && own.children[i] == c;
      KidPresent(t.kids, path, i);
      assert (path + [i])[..|path|] == path;
      assert Own(t.kids[i], path + [i]) in FlattenAll(t.kids, path) + [own];
    }
  }

  lemma Scale(k: nat, b: nat, x: nat)
    requires k <= b
    ensures k * x <= b * x
  {
  }

  lemma ShapedConcat(xs: seq<SearchNode>, ys: seq<SearchNode>, b: nat, deepest: nat)
    requires ShapedList(xs, b, deepest) && ShapedList(ys, b, deepest)
    ensures ShapedList(xs + ys, b, deepest)
  {
    forall n | n in ys ensures ClosedIn(n, xs + ys) {}
    ShapedJoin(xs, ys, b, deepest);
  }

  lemma Distribute(k: nat, x: nat)
    ensures (k + 1) * x == k * x + x
  {
  }

  // --------------------------------------------------------------- results ---

  datatype SearchStatus = SearchCompleted | SearchFailed

  datatype SearchResult = SearchResult(rootCandidates: seq<string>, nodes: seq<SearchNode>, status: SearchStatus)

  function Ids(cs: seq<Candidate>): (r: seq<string>)
    ensures |r| == |cs|
  {
    if cs == [] then [] else [cs[0].id] + Ids(cs[1..])
  }

  /** The trees one search grows from its root candidates, at most `b` of them. */
  function RootTrees(m: Models, b: nat, maxDepth: nat, stop: StopRule, world: Facts, roots: seq<Candidate>): seq<Tree> {
    GrowAll(m, b, maxDepth, stop, [], world, Take(roots, b))
  }

  function ResultOf(ts: seq<Tree>, kept: seq<Candidate>): SearchResult {
    SearchResult(Ids(kept), Nodes(ts), if Max(Values(ts)).None? then SearchFailed else SearchCompleted)
  }

  /** STRUCTURE: whatever the models answer, the node list meets the validators of
      a search result: unique ids, child references closed under parenthood, at
      most `b` children, bounded depth, and at most 1 + b + ... + b^L nodes for
      L the deepest level. */
  lemma SearchIsWellFormed(m: Models, b: nat, maxDepth: nat, stop: StopRule, world: Facts, roots: seq<Candidate>)
    ensures var ts := RootTrees(m, b, maxDepth, stop, world, roots);
      var ns := Nodes(ts);
      var deepest := if maxDepth == 0 then 1 else maxDepth;
      && UniqueIds(ns) && ShapedList(ns, b, deepest) && |ns| <= PowerSum(b, deepest) && |ts| <= b
  {
    var ts := RootTrees(m, b, maxDepth, stop, world, roots);
    var deepest := if maxDepth == 0 then 1 else maxDepth;
    GrowAllWithin(m, b, maxDepth, stop, [], world, Take(roots, b));
    RootsUnique(ts);
    RootsShaped(ts, b, deepest);
  }

  lemma RootsUnique(ts: seq<Tree>)
    ensures UniqueIds(Nodes(ts))
  {
    TreesUnique(ts, []);
    BelowTrees(ts, []);
    JoinUnique([RootNode(ts)], FlattenAll(ts, []));
  }

  lemma RootsShaped(ts: seq<Tree>, b: nat, deepest: nat)
    requires deepest > 0 && |ts| <= b && forall t <- ts :: Within(t, b, deepest - 1)
    ensures ShapedList(Nodes(ts), b, deepest) && |Nodes(ts)| <= PowerSum(b, deepest)
  {
    TreesShaped(ts, [], b, deepest - 1);
    TreesSize(ts, [], b, deepest - 1);
    RootIsClosed(ts);
    ShapedUnderRoot(RootNode(ts), FlattenAll(ts, []), b, deepest);
    PowerSumUnfolds(b, deepest);
    Scale(|ts|, b, PowerSum(b, deepest - 1));
  }

  lemma RootIsClosed(ts: seq<Tree>)
    ensures ClosedIn(RootNode(ts), Nodes(ts))
  {
    var root := RootNode(ts);
    forall c <- root.children ensures exists n <- Nodes(ts) :: n.id == c && n.parent == Some([]) {
      var i :| 0 <= i < |ts| && root.children[i] == c;
      KidPresent(ts, [], i);
      assert Own(ts[i], [] + [i]) in Nodes(ts);
    }
  }

  lemma ShapedUnderRoot(root: SearchNode, below: seq<SearchNode>, b: nat, deepest: nat)
    requires ShapedList(below, b, deepest) && NodeShape(root, b) && root.depth <= deepest && ClosedIn(root, [root] + below)
    ensures ShapedList([root] + below, b, deepest)
  {
    forall n | n in below ensures ClosedIn(n, [root] + below) {}
  }

  // -------------------------------------------------------------- selector ---

  datatype Selection = Selection(candidate: string, node: Path, value: real)

  function OrZero(x: Option<real>): real { if x.Some? then x.value else 0.0 }

  predicate Selectable(n: SearchNode) {
    n.parent == Some([]) && n.status != Failed && n.evaluation.Some? && n.candidate.Some?
  }

  /** Higher value, then higher own score, then higher confidence, then lower risk. */
  predicate Beats(a: SearchNode, b: SearchNode) {
    var va, vb := OrZero(a.value), OrZero(b.value);
    var sa, sb := OrZero(a.score), OrZero(b.score);
    var ca, cb := OrZero(a.confidence), OrZero(b.confidence);
    va > vb || (va == vb && (sa > sb || (sa == sb && (ca > cb || (ca == cb && OrZero(a.risk) < OrZero(b.risk))))))
  }

  /** Among the first `n` nodes, the best selectable one, the earliest among equals. */
  function Best(ns: seq<SearchNode>, n: nat): (r: Option<nat>)
    requires n <= |ns|
    ensures r.None? <==> forall j :: 0 <= j < n ==> !Selectable(ns[j])
    ensures r.Some? ==> r.value < n && Selectable(ns[r.value])
    ensures r.Some? ==> forall j :: 0 <= j < n && Selectable(ns[j]) ==> !Beats(ns[j], ns[r.value])
    ensures r.Some? ==> forall j :: 0 <= j < r.value && Selectable(ns[j]) ==> Beats(ns[r.value], ns[j])
  {
    if n == 0 then None
    else
      var before := Best(ns, n - 1);
      if !Selectable(ns[n - 1]) then before
      else if before.None? || Beats(ns[n - 1], ns[before.value]) then Some(n - 1)
      else before
  }

  function SelectAction(r: SearchResult): Option<Selection> {
    if r.status.SearchFailed? || !(exists n <- r.nodes :: n.id == []) then None
    else
      var best := Best(r.nodes, |r.nodes|);
      if best.None? then None
      else Some(Selection(r.nodes[best.value].candidate.value, r.nodes[best.value].id, OrZero(r.nodes[best.value].value)))
  }

  /** The order is decided by the first of value, score, confidence and risk in which
      two nodes differ, a missing number counting as zero. */
  lemma BeatsExactly(a: SearchNode, b: SearchNode)
    ensures var va, vb := if a.value.Some? then a.value.value else 0.0, if b.value.Some? then b.value.value else 0.0;
      var sa, sb := if a.score.Some? then a.score.value else 0.0, if b.score.Some? then b.score.value else 0.0;
      var ca, cb := if a.confidence.Some? then a.confidence.value else 0.0, if b.confidence.Some? then b.confidence.value else 0.0;
      var ra, rb := if a.risk.Some? then a.risk.value else 0.0, if b.risk.Some? then b.risk.value else 0.0;
      && (va != vb ==> (Beats(a, b) <==> va > vb))
      && (va == vb && sa != sb ==> (Beats(a, b) <==> sa > sb))
      && (va == vb && sa == sb && ca != cb ==> (Beats(a, b) <==> ca > cb))
      && (va == vb && sa == sb && ca == cb ==> (Beats(a, b) <==> ra < rb))
  {
  }

  /** A SELECTION from any result is its best selectable node; there is none exactly
      when the search failed, the list has no root, or nothing in it is selectable: a
      branch of the root that did not fail and was evaluated. */
  lemma SelectExactly(r: SearchResult)
    ensures var chosen := SelectAction(r);
      && (chosen.None? <==> r.status.SearchFailed? || (forall n <- r.nodes :: n.id != []) || forall n <- r.nodes :: !Selectable(n))
      && (chosen.Some? ==>
            exists i :: 0 <= i < |r.nodes| && Selectable(r.nodes[i]) && r.nodes[i].id == chosen.value.node
                        && r.nodes[i].candidate == Some(chosen.value.candidate) && OrZero(r.nodes[i].value) == chosen.value.value
                        && forall n <- r.nodes :: Selectable(n) ==> !Beats(n, r.nodes[i]))
    ensures forall n: SearchNode ::
      Selectable(n) <==> n.parent == Some([]) && n.status != Failed && n.evaluation.Some? && n.candidate.Some?
  {
    var best := Best(r.nodes, |r.nodes|);
    if best.Some? && SelectAction(r).Some? { assert Selectable(r.nodes[best.value]); }
  }

  /** The root stands for no candidate: expanded, at depth zero, with one child for
      each of the first branches, and a value exactly when one of them has one. */
  lemma RootTells(ts: seq<Tree>)
    ensures var root := Nodes(ts)[0];
      && root == SearchNode([], None, 0, None, None, None, root.children, false, Expanded, root.value, None, None, None)
      && |root.children| == |ts| && (forall i :: 0 <= i < |ts| ==> root.children[i] == [i])
      && (root.value.None? <==> forall t <- ts :: t.Broken?)
  {
    NoValuesMeansBroken(ts);
    MaxNone(Values(ts));
  }

  lemma {:induction false} MaxIsMember(xs: seq<real>)
    requires xs != []
    ensures Max(xs).Some? && Max(xs).value in xs
  {
    var k := |xs| - 1;
    if xs[..k] == [] {
    } else {
      MaxIsMember(xs[..k]);
    }
  }

  lemma {:induction false} ValueOwner(ts: seq<Tree>, v: real) returns (i: nat)
    requires v in Values(ts)
    ensures i < |ts| && Value(ts[i]) == Some(v)
    decreases |ts|
  {
    var k := |ts| - 1;
    if v in Values(ts[..k]) {
      i := ValueOwner(ts[..k], v);
    } else {
      i := k;
    }
  }

  lemma {:induction false} RootKid(ts: seq<Tree>, n: SearchNode) returns (i: nat)
    requires n in FlattenAll(ts, []) && |n.id| == 1
    ensures i < |ts| && n == Own(ts[i], [i])
    decreases |ts|
  {
    var k := |ts| - 1;
    assert [] + [k] == [k];
    var last := Flatten(ts[k], [k]);
    assert FlattenAll(ts, []) == FlattenAll(ts[..k], []) + last;
    if n in FlattenAll(ts[..k], []) {
      i := RootKid(ts[..k], n);
    } else {
      i := k;
      assert n in last;
      OnlyOwnIsShort(ts[k], [k], n);
    }
  }

  lemma OnlyOwnIsShort(t: Tree, path: Path, n: SearchNode)
    requires path != [] && n in Flatten(t, path) && |n.id| <= |path|
    ensures n == Own(t, path)
  {
    if t.Visited? { BelowTrees(t.kids, path); }
  }

  /** THE SELECTOR AGREES WITH THE SEARCH: a search has a selection exactly when it
      completed; the selected node is one of the root candidates that did not fail
      (by `Best`, the earliest of the lexicographically best ones), and its value
      is the root's. */
  lemma SelectorAgrees(ts: seq<Tree>, kept: seq<Candidate>)
    ensures var r := ResultOf(ts, kept);
      var s := SelectAction(r);
      && (s.Some? <==> r.status.SearchCompleted?)
      && (s.Some? ==>
            && r.nodes[0].value == Some(s.value.value)
            && exists i :: 0 <= i < |ts| && s.value.node == [i] && s.value.candidate == ts[i].candidate.id && ts[i].Visited?)
  {
    var r := ResultOf(ts, kept);
    assert r.nodes[0].id == [] && r.nodes[0] in r.nodes;
    if r.status.SearchCompleted? {
      var own := RootWinner(ts);
      var b := Best(r.nodes, |r.nodes|);
      assert own in r.nodes;
      var best := r.nodes[b.value];
      var i := SelectableIsRootKid(ts, best);
      assert OrZero(best.value) <= OrZero(own.value);
      assert !Beats(own, best);
    }
  }

  /** Some root candidate's own node carries the root's value. */
  lemma RootWinner(ts: seq<Tree>) returns (own: SearchNode)
    requires Max(Values(ts)).Some?
    ensures own in Nodes(ts) && Selectable(own) && own.value == Max(Values(ts))
  {
    MaxNone(Values(ts));
    MaxIsMember(Values(ts));
    var i := ValueOwner(ts, Max(Values(ts)).value);
    KidPresent(ts, [], i);
    own := Own(ts[i], [] + [i]);
  }

  /** A selectable node is a root candidate's own, with at most the root's value. */
  lemma SelectableIsRootKid(ts: seq<Tree>, n: SearchNode) returns (i: nat)
    requires n in Nodes(ts) && Selectable(n) && Max(Values(ts)).Some?
    ensures i < |ts| && n == Own(ts[i], [i]) && ts[i].Visited?
    ensures n.value.Some? && n.value.value <= Max(Values(ts)).value
  {
    ValueTheorem(ts);
    assert n in FlattenAll(ts, []);
    assert Nodes(ts)[1..] == FlattenAll(ts, []);
    BestAtMostRoot(Nodes(ts), n, Max(Values(ts)).value);
    ParentIsRoot(ts, n);
    i := RootKid(ts, n);
  }

  lemma BestAtMostRoot(ns: seq<SearchNode>, n: SearchNode, v: real)
    requires n.status != Failed && GoodValue(ns, n) && ValueIsMax(ns, [], Some(v))
    ensures n.value.Some? && n.value.value <= v
  {
    var m :| m in ns && TerminalBelow(m, n.id) && m.score == Some(n.value.value);
    assert TerminalBelow(m, []);
  }

  lemma {:induction false} ParentIsPrefix(t: Tree, path: Path)
    requires path != []
    ensures forall n :: n in Flatten(t, path) ==> n.id != [] && n.parent == Some(n.id[..|n.id| - 1])
    decreases t, 0
  {
    if t.Visited? { ParentsArePrefixes(t.kids, path); }
  }

  lemma {:induction false} ParentsArePrefixes(ts: seq<Tree>, path: Path)
    ensures forall n :: n in FlattenAll(ts, path) ==> n.id != [] && n.parent == Some(n.id[..|n.id| - 1])
    decreases ts, 1
  {
    if ts != [] {
      var k := |ts| - 1;
      ParentsArePrefixes(ts[..k], path);
      ParentIsPrefix(ts[k], path + [k]);
    }
  }

  lemma ParentIsRoot(ts: seq<Tree>, n: SearchNode)
    requires n in FlattenAll(ts, []) && n.parent == Some([])
    ensures |n.id| == 1
  {
    ParentsArePrefixes(ts, []);
    assert |n.id[..|n.id| - 1]| == 0;
  }

  // ------------------------------------------------------- the live search ---

  /** The recorded part of a mission's state that a search touches. */
  datatype BrainState = BrainState(
    world: Facts, predictions: seq<Prediction>, evaluations: seq<Evaluation>,
    events: nat, version: nat, trace: Option<SearchResult>)
  {
    function WithEvent(): BrainState { this.(events := events + 1, version := version + 1) }
    function WithPrediction(p: Prediction): BrainState { this.(predictions := predictions + [p], version := version + 1) }
    function WithEvaluation(e: Evaluation): BrainState { this.(evaluations := evaluations + [e], version := version + 1) }
  }

  /** What one visit records, in the order of its effects. */
  function AfterTree(s: BrainState, t: Tree): BrainState
    decreases t, 0
  {
    match t
    case Broken(_, None) => s.WithEvent()
    case Broken(_, Some(p)) => s.WithPrediction(p).WithEvent().WithEvent()
    case Visited(_, p, e, kids) =>
      AfterTrees(s.WithPrediction(p).WithEvent().WithEvaluation(e).WithEvent(), kids).WithEvent()
  }

  function AfterTrees(s: BrainState, ts: seq<Tree>): BrainState
    decreases ts, 1
  {
    if ts == [] then s
    else
      var n := |ts| - 1;
      AfterTree(AfterTrees(s, ts[..n]), ts[n])
  }

  /** Recording only ever appends, and never touches the real world. */
  predicate RecordsOnly(s: BrainState, t: BrainState) {
    t.world == s.world && s.predictions <= t.predictions && s.evaluations <= t.evaluations && s.version <= t.version
  }

  function Stored(s: BrainState, r: SearchResult): BrainState { s.(trace := Some(r), version := s.version + 1) }

  function Predicted(ns: seq<SearchNode>): nat {
    if ns == [] then 0 else Predicted(ns[..|ns| - 1]) + if ns[|ns| - 1].prediction.Some? then 1 else 0
  }

  function Evaluated(ns: seq<SearchNode>): nat {
    if ns == [] then 0 else Evaluated(ns[..|ns| - 1]) + if ns[|ns| - 1].evaluation.Some? then 1 else 0
  }

  lemma {:induction false} CountsConcat(xs: seq<SearchNode>, ys: seq<SearchNode>)
    ensures Predicted(xs + ys) == Predicted(xs) + Predicted(ys) && Evaluated(xs + ys) == Evaluated(xs) + Evaluated(ys)
    decreases |ys|
  {
    if ys == [] {
      assert xs + ys == xs;
    } else {
      var n := |ys| - 1;
      assert (xs + ys)[..|xs + ys| - 1] == xs + ys[..n];
      CountsConcat(xs, ys[..n]);
    }
  }

  /** A search's records: the world is the caller's, earlier records stay, and one
      prediction and one evaluation are appended for each node that has one. */
  ghost predicate RecordsFor(s: BrainState, t: BrainState, ns: seq<SearchNode>) {
    && RecordsOnly(s, t)
    && |t.predictions| == |s.predictions| + Predicted(ns) && |t.evaluations| == |s.evaluations| + Evaluated(ns)
    && t.events == s.events + |ns| + Predicted(ns) + Evaluated(ns) && t.trace == s.trace
    && t.version == s.version + |ns| + 2 * Predicted(ns) + 2 * Evaluated(ns)
  }

  lemma RecordsForConcat(s: BrainState, t: BrainState, u: BrainState, xs: seq<SearchNode>, ys: seq<SearchNode>)
    requires RecordsFor(s, t, xs) && RecordsFor(t, u, ys)
    ensures RecordsFor(s, u, xs + ys)
  {
    RecordsTransitive(s, t, u);
    CountsConcat(xs, ys);
  }

  lemma OneNode(n: SearchNode)
    ensures Predicted([n]) == (if n.prediction.Some? then 1 else 0) && Evaluated([n]) == (if n.evaluation.Some? then 1 else 0)
  {
    assert [n][..0] == [];
  }

  lemma {:induction false} TreeRecords(s: BrainState, t: Tree, path: Path)
    requires path != []
    ensures RecordsFor(s, AfterTree(s, t), Flatten(t, path))
    decreases t, 0
  {
    OneNode(Own(t, path));
    if t.Broken? {
      assert Flatten(t, path) == [Own(t, path)];
    } else {
      var s1 := s.WithPrediction(t.prediction).WithEvent().WithEvaluation(t.eval).WithEvent();
      TreesRecord(s1, t.kids, path);
      OwnRecords(s, t, path);
    }
  }

  lemma OwnRecords(s: BrainState, t: Tree, path: Path)
    requires path != [] && t.Visited?
    requires var s1 := s.WithPrediction(t.prediction).WithEvent().WithEvaluation(t.eval).WithEvent();
      RecordsFor(s1, AfterTrees(s1, t.kids), FlattenAll(t.kids, path))
    ensures RecordsFor(s, AfterTree(s, t), Flatten(t, path))
  {
    var s1 := s.WithPrediction(t.prediction).WithEvent().WithEvaluation(t.eval).WithEvent();
    OneNode(Own(t, path));
    CountsConcat(FlattenAll(t.kids, path), [Own(t, path)]);
    RecordsTransitive(s, s1, AfterTrees(s1, t.kids));
    RecordsTransitive(s, AfterTrees(s1, t.kids), AfterTree(s, t));
    assert |Flatten(t, path)| == |FlattenAll(t.kids, path)| + 1;
  }

  lemma {:induction false} TreesRecord(s: BrainState, ts: seq<Tree>, path: Path)
    ensures RecordsFor(s, AfterTrees(s, ts), FlattenAll(ts, path))
    decreases ts, 1
  {
    if ts != [] {
      var k := |ts| - 1;
      TreesRecord(s, ts[..k], path);
      TreeRecords(AfterTrees(s, ts[..k]), ts[k], path + [k]);
      RecordsForConcat(s, AfterTrees(s, ts[..k]), AfterTree(AfterTrees(s, ts[..k]), ts[k]), FlattenAll(ts[..k], path), Flatten(ts[k], path + [k]));
    }
  }

  /** WHAT A SEARCH LEAVES BEHIND: the real world is untouched, and beside its trace
      only one prediction and one evaluation per node that has one are added; there is
      an event for each of these and each node, and one for the start and the end; and
      the version counts every one of these changes. */
  lemma SearchRecords(s: BrainState, ts: seq<Tree>, r: SearchResult)
    ensures var t := Stored(AfterTrees(s.WithEvent(), ts).WithEvent(), r);
      var ns := FlattenAll(ts, []);
      && t.world == s.world && s.predictions <= t.predictions && s.evaluations <= t.evaluations && t.trace == Some(r)
      && |t.predictions| == |s.predictions| + Predicted(ns) && |t.evaluations| == |s.evaluations| + Evaluated(ns)
      && t.events == s.events + 2 + |ns| + Predicted(ns) + Evaluated(ns)
      && t.version == s.version + (t.events - s.events) + Predicted(ns) + Evaluated(ns) + 1
  {
    TreesRecord(s.WithEvent(), ts, []);
  }

  class DeliberationSearch {
    const models: Models
    const b: nat
    var nodes: seq<SearchNode>

    constructor (models: Models, b: nat)
      ensures this.models == models && this.b == b
    {
      this.models, this.b := models, b;
      nodes := [];
    }

    /** One branch: predict, evaluate, expand, record its own node last. */
    method Visit(recorded: BrainState, branch: Facts, c: Candidate, path: Path, maxDepth: nat, stop: StopRule)
      returns (state: BrainState, value: Option<real>)
      requires path != [] && |path| <= maxDepth + 1
      modifies this
      ensures var t := Grow(models, b, maxDepth, stop, path, branch, c);
        nodes == old(nodes) + Flatten(t, path) && value == Value(t) && state == AfterTree(recorded, t)
      decreases maxDepth + 1 - |path|, 1
    {
      var parent := Some(path[..|path| - 1]);
      var prediction := models.predict(path, branch, c);
      if prediction.None? {
        nodes := nodes + [SearchNode(path, parent, |path|, Some(c.id), None, None, [], true, Failed, None, None, None, None)];
        return recorded.WithEvent(), None;
      }
      var p := prediction.value;
      var evaluation := models.evaluate(path, branch, c, p);
      if evaluation.None? {
        nodes := nodes + [SearchNode(path, parent, |path|, Some(c.id), Some(p.id), None, [], true, Failed, None, None, None, None)];
        return recorded.WithPrediction(p).WithEvent().WithEvent(), None;
      }
      var e := evaluation.value;
      ghost var t := Grow(models, b, maxDepth, stop, path, branch, c);
      assert t == Visited(c, p, e, t.kids);
      state := recorded.WithPrediction(p).WithEvent().WithEvaluation(e).WithEvent();
      state, value := Expand(state, c, p, e, path, maxDepth, stop, t.kids);
    }

    /** The rest of a visit, once both model calls have answered. */
    method Expand(recorded: BrainState, c: Candidate, p: Prediction, e: Evaluation, path: Path, maxDepth: nat, stop: StopRule, ghost kids: seq<Tree>)
      returns (state: BrainState, value: Option<real>)
      requires path != [] && |path| <= maxDepth + 1
      requires kids == if |path| < maxDepth && !GoodEnough(stop, p, e)
                       then GrowAll(models, b, maxDepth, stop, path, p.world, AcceptedChildren(models, b, path, p.world)) else []
      modifies this
      ensures var t := Visited(c, p, e, kids); nodes == old(nodes) + Flatten(t, path) && value == Value(t)
      ensures state == AfterTrees(recorded, kids).WithEvent()
      decreases maxDepth + 1 - |path|, 0
    {
      ghost var before := nodes;
      var childIds: seq<Path>, childValues: seq<real> := [], [];
      state := recorded;
      if |path| < maxDepth && !GoodEnough(stop, p, e) {
        state, childIds, childValues := VisitAll(state, p.world, AcceptedChildren(models, b, path, p.world), path, maxDepth, stop);
      }
      assert nodes == before + FlattenAll(kids, path) && childValues == Values(kids) && childIds == ChildIds(path, |kids|);
      MaxNone(childValues);
      var leaf := childValues == [];
      value := if leaf then Some(e.score) else Max(childValues);
      nodes := nodes + [SearchNode(path, Some(path[..|path| - 1]), |path|, Some(c.id), Some(p.id), Some(e.id), childIds, leaf,
        if leaf then Terminal else Expanded, value, Some(e.score), Some(p.confidence), Some(e.risk))];
      state := state.WithEvent();
    }

    /** One turn of that loop: the forest so far gains one branch. */
    method VisitNext(recorded: BrainState, current: BrainState, world: Facts, children: seq<Candidate>, i: nat, path: Path,
                     maxDepth: nat, stop: StopRule, values: seq<real>, ghost before: seq<SearchNode>, ghost ts: seq<Tree>)
      returns (state: BrainState, childValues: seq<real>, ghost us: seq<Tree>)
      requires |path| <= maxDepth && i < |children| && current == AfterTrees(recorded, ts)
      requires ts == GrowAll(models, b, maxDepth, stop, path, world, children[..i])
      requires nodes == before + FlattenAll(ts, path) && values == Values(ts)
      modifies this
      ensures us == GrowAll(models, b, maxDepth, stop, path, world, children[..i + 1])
      ensures nodes == before + FlattenAll(us, path) && childValues == Values(us)
      ensures state == AfterTrees(recorded, us)
      decreases maxDepth - |path|, 2
    {
      var value;
      state, value := Visit(current, world, children[i], path + [i], maxDepth, stop);
      childValues := if value.Some? then values + [value.value] else values;
      us := NextForest(models, b, maxDepth, stop, path, world, children, i, ts, before, nodes, childValues);
      StateStep(recorded, ts, us);
    }

    /** The loop over the branches of one node, in proposal order. */
    method VisitAll(recorded: BrainState, world: Facts, children: seq<Candidate>, path: Path, maxDepth: nat, stop: StopRule)
      returns (state: BrainState, childIds: seq<Path>, childValues: seq<real>)
      requires |path| <= maxDepth
      modifies this
      ensures var ts := GrowAll(models, b, maxDepth, stop, path, world, children);
        nodes == old(nodes) + FlattenAll(ts, path) && childValues == Values(ts) && state == AfterTrees(recorded, ts)
      ensures childIds == ChildIds(path, |children|)
      decreases maxDepth - |path|, 3
    {
      ghost var before := nodes;
      ghost var ts: seq<Tree> := [];
      state, childIds, childValues := recorded, [], [];
      for i := 0 to |children|
        invariant ts == GrowAll(models, b, maxDepth, stop, path, world, children[..i])
        invariant nodes == before + FlattenAll(ts, path)
        invariant childValues == Values(ts) && childIds == ChildIds(path, i)
        invariant state == AfterTrees(recorded, ts)
      {
        state, childValues, ts := VisitNext(recorded, state, world, children, i, path, maxDepth, stop, childValues, before, ts);
        childIds := childIds + [path + [i]];
      }
      assert children[..|children|] == children;
    }

    /** One whole search: the result it stores is the one the specification grows,
        and the caller's world is the same before and after. */
    method Search(initial: BrainState, roots: seq<Candidate>, maxDepth: nat, stop: StopRule)
      returns (state: BrainState, result: SearchResult)
      modifies this
      ensures var ts := RootTrees(models, b, maxDepth, stop, initial.world, roots);
        && result == ResultOf(ts, Take(roots, b))
        && state == Stored(AfterTrees(initial.WithEvent(), ts).WithEvent(), result)
    {
      var kept := Take(roots, b);
      ghost var ts := GrowAll(models, b, maxDepth, stop, [], initial.world, kept);
      var root := SearchNode([], None, 0, None, None, None, [], false, Expanded, None, None, None, None);
      nodes := [root];
      var childIds, childValues;
      state, childIds, childValues := VisitAll(initial.WithEvent(), initial.world, kept, [], maxDepth, stop);
      var rootValue := Max(childValues);
      RootReplaced(root, root.(children := childIds, value := rootValue), FlattenAll(ts, []));
      nodes := nodes[0 := root.(children := childIds, value := rootValue)];
      result := SearchResult(Ids(kept), nodes, if rootValue.None? then SearchFailed else SearchCompleted);
      state := Stored(state.WithEvent(), result);
    }
  }

  lemma RootReplaced(root: SearchNode, filled: SearchNode, below: seq<SearchNode>)
    ensures ([root] + below)[0 := filled] == [filled] + below
  {
  }

  lemma StateStep(s: BrainState, ts: seq<Tree>, us: seq<Tree>)
    requires us != [] && us[..|us| - 1] == ts
    ensures AfterTrees(s, us) == AfterTree(AfterTrees(s, ts), us[|us| - 1])
  {
  }

  lemma RecordsTransitive(s: BrainState, t: BrainState, u: BrainState)
    requires RecordsOnly(s, t) && RecordsOnly(t, u)
    ensures RecordsOnly(s, u)
  {
  }

  /** One more candidate, and one more branch of the forest. */
  lemma NextForest(m: Models, b: nat, maxDepth: nat, stop: StopRule, path: Path, world: Facts, cs: seq<Candidate>, i: nat,
                   ts: seq<Tree>, before: seq<SearchNode>, after: seq<SearchNode>, values: seq<real>)
    returns (us: seq<Tree>)
    requires i < |cs| && |path| <= maxDepth && ts == GrowAll(m, b, maxDepth, stop, path, world, cs[..i])
    requires var t := Grow(m, b, maxDepth, stop, path + [i], world, cs[i]);
      after == before + FlattenAll(ts, path) + Flatten(t, path + [i]) && values == Append(Values(ts), Value(t))
    ensures us == GrowAll(m, b, maxDepth, stop, path, world, cs[..i + 1]) && us != [] && us[..|us| - 1] == ts
    ensures us[|us| - 1] == Grow(m, b, maxDepth, stop, path + [i], world, cs[i])
    ensures after == before + FlattenAll(us, path) && values == Values(us)
  {
    us := GrowStep(m, b, maxDepth, stop, path, world, cs, i, ts);
    ForestStep(ts, us, path, before);
  }

  function Append(xs: seq<real>, v: Option<real>): seq<real> {
    if v.None? then xs else xs + [v.value]
  }

  lemma GrowStep(m: Models, b: nat, maxDepth: nat, stop: StopRule, path: Path, world: Facts, cs: seq<Candidate>, i: nat, ts: seq<Tree>)
    returns (us: seq<Tree>)
    requires i < |cs| && |path| <= maxDepth && ts == GrowAll(m, b, maxDepth, stop, path, world, cs[..i])
    ensures us == GrowAll(m, b, maxDepth, stop, path, world, cs[..i + 1]) && |us| == i + 1
    ensures us[..i] == ts && us[i] == Grow(m, b, maxDepth, stop, path + [i], world, cs[i])
  {
    assert cs[..i + 1][..i] == cs[..i];
    us := GrowAll(m, b, maxDepth, stop, path, world, cs[..i + 1]);
  }

  lemma ForestStep(ts: seq<Tree>, us: seq<Tree>, path: Path, before: seq<SearchNode>)
    requires us != [] && ts == us[..|us| - 1]
    ensures var t := us[|us| - 1];
      && before + FlattenAll(us, path) == before + FlattenAll(ts, path) + Flatten(t, path + [|ts|])
      && Values(us) == Append(Values(ts), Value(t))
  {
    var t := us[|us| - 1];
    assert Values(us) == Values(ts) + match Value(t) case None => [] case Some(v) => [v];
  }
}
