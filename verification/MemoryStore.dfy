/** The bounded JSONL memory store: ordered dictionaries with caps, rewritten as a
    whole to one text file after every change and read back line by line. */
module MemoryStore {
  import opened Common

  // ---------------------------------------------------------------- data ---

  datatype Kind = Working | Episodic | Semantic | Procedural

  /** `rest` stands for the fields the store never looks at. */
  datatype Entry =
    | Record(id: string, kind: Kind, content: string, tags: seq<string>, createdAt: int,
             superseded: bool, supersededBy: Option<string>, rest: string)
    | Other(id: string, data: string)

  /** Which of the four dictionaries a line belongs to. */
  datatype Tag = RecordTag | ObjectTag | RelationTag | TrajectoryTag

  /** A Python dictionary keyed by id: insertion-ordered, each id once. */
  type Dict = seq<Entry>

  datatype Contents = Contents(records: Dict, objects: Dict, relations: Dict, trajectories: Dict)

  const NOTHING := Contents([], [], [], [])

  predicate IsKind(x: Entry, k: Kind) { x.Record? && x.kind == k }

  predicate HasId(d: Dict, id: string) { exists x <- d :: x.id == id }

  predicate Distinct(d: Dict) {
    d != [] ==> !HasId(d[1..], d[0].id) && Distinct(d[1..])
  }

  /** `d[x.id] = x`: an old id keeps its place, a new one goes to the end. */
  function Put(d: Dict, x: Entry): Dict {
    if d == [] then [x] else if d[0].id == x.id then [x] + d[1..] else [d[0]] + Put(d[1..], x)
  }

  /** `del d[id]` */
  function Without(d: Dict, id: string): Dict {
    if d == [] then [] else if d[0].id == id then d[1..] else [d[0]] + Without(d[1..], id)
  }

  function Count(d: Dict, k: Kind): nat {
    if d == [] then 0 else (if IsKind(d[0], k) then 1 else 0) + Count(d[1..], k)
  }

  function ScrubTags(scrub: string -> string, tags: seq<string>): seq<string> {
    if tags == [] then [] else [scrub(tags[0])] + ScrubTags(scrub, tags[1..])
  }

  function Scrubbed(scrub: string -> string, x: Entry): (r: Entry)
    ensures r.id == x.id && (forall k :: IsKind(r, k) <==> IsKind(x, k)) && (r.Record? <==> x.Record?)
  {
    if x.Record? then x.(content := scrub(x.content), tags := ScrubTags(scrub, x.tags)) else x.(data := scrub(x.data))
  }

  /** Scrubbing goes over every text of a record's content and tags, or of another
      entry's data, and touches nothing else. */
  lemma {:induction false} ScrubbedExactly(scrub: string -> string, x: Entry)
    ensures var r := Scrubbed(scrub, x);
      && (x.Record? ==>
            && r == x.(content := scrub(x.content), tags := r.tags) && |r.tags| == |x.tags|
            && forall i :: 0 <= i < |x.tags| ==> r.tags[i] == scrub(x.tags[i]))
      && (x.Other? ==> r == x.(data := scrub(x.data)))
  {
    if x.Record? { ScrubbedTags(scrub, x.tags); }
  }

  lemma {:induction false} ScrubbedTags(scrub: string -> string, tags: seq<string>)
    ensures |ScrubTags(scrub, tags)| == |tags| && forall i :: 0 <= i < |tags| ==> ScrubTags(scrub, tags)[i] == scrub(tags[i])
  {
    if tags != [] { ScrubbedTags(scrub, tags[1..]); }
  }

  // -------------------------------------------------------------- eviction ---

  /** What eviction leaves, for the kinds in `ks`: an entry stays while fewer than
      `max` of its kind come after it. */
  function Kept(d: Dict, ks: set<Kind>, max: nat): Dict {
    if d == [] then []
    else if d[0].Record? && d[0].kind in ks && Count(d[1..], d[0].kind) >= max then Kept(d[1..], ks, max)
    else [d[0]] + Kept(d[1..], ks, max)
  }

  const KINDS := {Working, Episodic, Semantic, Procedural}

  lemma AllKinds(k: Kind)
    ensures k in KINDS
  {
    match k { case Working => case Episodic => case Semantic => case Procedural => }
  }

  function Write(d: Dict, x: Entry, max: nat): Dict { Kept(Put(d, x), KINDS, max) }

  /** `while len(d) > max: del d[next(iter(d))]` */
  function Capped(d: Dict, max: nat): Dict {
    if |d| <= max then d else d[|d| - max..]
  }

  lemma {:induction false} KeptCounts(d: Dict, ks: set<Kind>, max: nat, k: Kind)
    ensures Count(Kept(d, ks, max), k) == if k in ks && Count(d, k) > max then max else Count(d, k)
  {
    if d != [] {
      KeptCounts(d[1..], ks, max, k);
      assert ([d[0]] + Kept(d[1..], ks, max))[1..] == Kept(d[1..], ks, max);
    }
  }

  lemma {:induction false} KeptIsAll(d: Dict, ks: set<Kind>, max: nat)
    requires forall k :: k in ks ==> Count(d, k) <= max
    ensures Kept(d, ks, max) == d
  {
    if d != [] {
      forall k | k in ks ensures Count(d[1..], k) <= max { assert Count(d, k) >= Count(d[1..], k); }
      if d[0].Record? { assert Count(d, d[0].kind) == 1 + Count(d[1..], d[0].kind); }
      KeptIsAll(d[1..], ks, max);
    }
  }

  /** CAPS: every write leaves every kind within its cap, whatever came before. */
  lemma WriteKeepsCaps(d: Dict, x: Entry, max: nat, k: Kind)
    ensures Count(Write(d, x, max), k) <= max
  {
    KeptCounts(Put(d, x), KINDS, max, k);
    assert k in KINDS;
  }

  ghost predicate WithinCaps(d: Dict, max: nat) { forall k :: Count(d, k) <= max }

  lemma {:induction false} CountConcat(a: Dict, b: Dict, k: Kind)
    ensures Count(a + b, k) == Count(a, k) + Count(b, k)
  {
    if a == [] {
      assert a + b == b;
    } else {
      assert (a + b)[1..] == a[1..] + b;
      CountConcat(a[1..], b, k);
    }
  }

  lemma {:induction false} PutNew(d: Dict, x: Entry)
    requires !HasId(d, x.id)
    ensures Put(d, x) == d + [x]
  {
    if d != [] {
      assert d[0] in d;
      forall y | y in d[1..] ensures y.id != x.id { assert y in d; }
      PutNew(d[1..], x);
    }
  }

  lemma LaterIdDiffers(d: Dict, p: nat)
    requires Distinct(d) && 0 < p < |d|
    ensures d[0].id != d[p].id
  {
    var rest := d[1..];
    assert rest[p - 1] in rest && rest[p - 1] == d[p];
  }

  /** Cutting the tail of a list at two places cuts the list one place further on. */
  lemma HeadCut(d: Dict, mid: Dict, i: nat, j: nat)
    requires i <= j < |d|
    ensures [d[0]] + (d[1..][..i] + mid + d[1..][j..]) == d[..i + 1] + mid + d[j + 1..]
  {
    assert [d[0]] + d[1..][..i] == d[..i + 1] && d[1..][j..] == d[j + 1..];
  }

  lemma {:induction false} PutAt(d: Dict, x: Entry, p: nat)
    requires p < |d| && d[p].id == x.id && Distinct(d)
    ensures Put(d, x) == d[..p] + [x] + d[p + 1..]
  {
    if p > 0 {
      LaterIdDiffers(d, p);
      PutAt(d[1..], x, p - 1);
      HeadCut(d, [x], p - 1, p);
    } else {
      assert d[..0] == [];
    }
  }

  /** Where the oldest record of a kind is. */
  function Oldest(d: Dict, k: Kind): (p: nat)
    requires Count(d, k) > 0
    ensures p < |d| && IsKind(d[p], k) && Count(d[..p], k) == 0
  {
    if IsKind(d[0], k) then 0
    else
      var p := Oldest(d[1..], k) + 1;
      assert d[..p][1..] == d[1..][..p - 1];
      p
  }

  /** `d` without its oldest record of a kind. */
  function WithoutOldest(d: Dict, k: Kind): Dict
    requires Count(d, k) > 0
  {
    if IsKind(d[0], k) then d[1..] else [d[0]] + WithoutOldest(d[1..], k)
  }

  lemma {:induction false} WithoutOldestAt(d: Dict, k: Kind)
    requires Count(d, k) > 0
    ensures var p := Oldest(d, k); WithoutOldest(d, k) == d[..p] + d[p + 1..]
  {
    if IsKind(d[0], k) {
      assert d[..0] == [];
    } else {
      var p := Oldest(d[1..], k);
      WithoutOldestAt(d[1..], k);
      HeadCut(d, [], p, p + 1);
      assert d[..p + 1] + [] == d[..p + 1] && d[1..][..p] + [] == d[1..][..p];
    }
  }

  /** At the cap exactly the oldest of the kind makes room. */
  lemma {:induction false} KeptDropsOldest(d: Dict, x: Entry, max: nat)
    requires x.Record? && Count(d, x.kind) == max >= 1 && forall k :: k != x.kind ==> Count(d, k) <= max
    ensures Kept(d + [x], KINDS, max) == WithoutOldest(d, x.kind) + [x]
  {
    var rest := d[1..];
    assert (d + [x])[1..] == rest + [x];
    if d[0].Record? { CountAppend(rest, x, d[0].kind); AllKinds(d[0].kind); }
    if IsKind(d[0], x.kind) {
      forall k ensures Count(rest + [x], k) <= max {
        CountAppend(rest, x, k);
        assert Count(d, k) == Count(rest, k) + if IsKind(d[0], k) then 1 else 0;
      }
      KeptIsAll(rest + [x], KINDS, max);
    } else {
      forall k | k != x.kind ensures Count(rest, k) <= max { assert Count(d, k) >= Count(rest, k); }
      if d[0].Record? { assert Count(d, d[0].kind) == 1 + Count(rest, d[0].kind); }
      KeptDropsOldest(rest, x, max);
    }
  }

  lemma CountAppend(d: Dict, x: Entry, k: Kind)
    ensures Count(d + [x], k) == Count(d, k) + if IsKind(x, k) then 1 else 0
  {
    CountConcat(d, [x], k);
    assert Count([x], k) == if IsKind(x, k) then 1 else 0;
  }

  /** A NEW ID from a state within the caps: the record is kept, at the end, and at
      most the oldest record of its kind is gone. */
  lemma WriteNew(d: Dict, x: Entry, max: nat)
    requires max >= 1 && WithinCaps(d, max) && x.Record? && !HasId(d, x.id)
    ensures Write(d, x, max) ==
      if Count(d, x.kind) < max then d + [x]
      else WithoutOldest(d, x.kind) + [x]
  {
    PutNew(d, x);
    if Count(d, x.kind) < max {
      forall k ensures Count(d + [x], k) <= max { CountAppend(d, x, k); }
      KeptIsAll(d + [x], KINDS, max);
    } else {
      KeptDropsOldest(d, x, max);
    }
  }

  lemma CountReplaced(d: Dict, x: Entry, p: nat, k: Kind)
    requires p < |d|
    ensures Count(d[..p] + [x] + d[p + 1..], k) ==
      Count(d, k) - (if IsKind(d[p], k) then 1 else 0) + (if IsKind(x, k) then 1 else 0)
  {
    assert d == d[..p] + ([d[p]] + d[p + 1..]);
    assert d[..p] + [x] + d[p + 1..] == d[..p] + ([x] + d[p + 1..]);
    CountConcat(d[..p], [d[p]] + d[p + 1..], k);
    CountConcat(d[..p], [x] + d[p + 1..], k);
  }

  /** AN OLD ID WITH ITS OLD KIND: replaced in place, and nothing is evicted. */
  lemma WriteSameKind(d: Dict, x: Entry, max: nat, p: nat)
    requires WithinCaps(d, max) && Distinct(d) && p < |d| && d[p].id == x.id && x.Record? && IsKind(d[p], x.kind)
    ensures Write(d, x, max) == d[..p] + [x] + d[p + 1..]
  {
    PutAt(d, x, p);
    forall k ensures Count(Put(d, x), k) <= max { CountReplaced(d, x, p, k); }
    KeptIsAll(Put(d, x), KINDS, max);
  }

  lemma {:induction false} KeptOrNot(d: Dict, max: nat, p: nat)
    requires Distinct(d) && p < |d| && d[p].Record?
    ensures d[p] in Kept(d, KINDS, max) <==> Count(d[p + 1..], d[p].kind) < max
  {
    if p > 0 {
      assert d[1..][p..] == d[p + 1..] && d[1..][p - 1] == d[p];
      LaterIdDiffers(d, p);
      KeptOrNot(d[1..], max, p - 1);
    } else {
      KeptIsPart(d[1..], KINDS, max);
      assert d[0] !in d[1..];
      AllKinds(d[0].kind);
    }
  }

  lemma {:induction false} KeptIsPart(d: Dict, ks: set<Kind>, max: nat)
    ensures forall x :: x in Kept(d, ks, max) ==> x in d
    ensures Distinct(d) ==> Distinct(Kept(d, ks, max))
  {
    if d != [] {
      KeptIsPart(d[1..], ks, max);
      assert ([d[0]] + Kept(d[1..], ks, max))[1..] == Kept(d[1..], ks, max);
    }
  }

  lemma {:induction false} PutDistinct(d: Dict, x: Entry)
    requires Distinct(d)
    ensures Distinct(Put(d, x)) && x in Put(d, x)
    ensures forall y :: y in Put(d, x) ==> y == x || y in d
  {
    if d != [] {
      PutDistinct(d[1..], x);
      var r := Put(d, x);
      assert r[1..] == if d[0].id == x.id then d[1..] else Put(d[1..], x);
    }
  }

  /** A REWRITE UNDER ANOTHER KIND keeps its old place, so the record just written
      survives exactly when fewer than `max` records of the new kind follow it. */
  lemma RewriteSurvivesExactly(d: Dict, x: Entry, max: nat, p: nat)
    requires Distinct(d) && p < |d| && d[p].id == x.id && x.Record?
    ensures x in Write(d, x, max) <==> Count(d[p + 1..], x.kind) < max
  {
    PutAt(d, x, p);
    PutDistinct(d, x);
    var e := Put(d, x);
    assert e[p] == x && e[p + 1..] == d[p + 1..];
    KeptOrNot(e, max, p);
  }

  /** ... and it can be the one evicted: with a cap of one, giving an older record
      the kind of a younger one discards what was just written. */
  lemma RewriteCanEvictItself()
    ensures var a := Record("a", Episodic, "x", [], 0, false, None, "");
      var b := Record("b", Semantic, "y", [], 1, false, None, "");
      Write([a, b], a.(kind := Semantic), 1) == [b]
  {
    var a := Record("a", Episodic, "x", [], 0, false, None, "");
    var b := Record("b", Semantic, "y", [], 1, false, None, "");
    var e := [a.(kind := Semantic), b];
    assert Put([a, b], a.(kind := Semantic)) == e;
    assert e[1..] == [b] && [b][1..] == [];
    assert Count([b], Semantic) == 1;
    assert Kept([b], KINDS, 1) == [b];
  }

  /** The other dictionaries: within the cap, an upsert always keeps its entry and
      drops at most the oldest one. */
  lemma UpsertMeaning(d: Dict, x: Entry, max: nat)
    requires |d| <= max && max >= 1
    ensures var r := Upserted(d, x, max);
      && |r| <= max
      && (!HasId(d, x.id) ==> r == if |d| < max then d + [x] else d[1..] + [x])
      && (HasId(d, x.id) ==> r == Put(d, x) && |r| == |d|)
  {
    if HasId(d, x.id) {
      PutOldLength(d, x);
    } else {
      PutNew(d, x);
      if |d| == max { assert (d + [x])[1..] == d[1..] + [x]; }
    }
  }

  lemma {:induction false} PutOldLength(d: Dict, x: Entry)
    requires HasId(d, x.id)
    ensures |Put(d, x)| == |d|
  {
    if d[0].id != x.id {
      var y :| y in d && y.id == x.id;
      assert y in d[1..];
      PutOldLength(d[1..], x);
    }
  }

  // ------------------------------------------------- the eviction algorithm ---

  function IdsOf(d: Dict, k: Kind): seq<string> {
    if d == [] then [] else if IsKind(d[0], k) then [d[0].id] + IdsOf(d[1..], k) else IdsOf(d[1..], k)
  }

  function WithoutAll(d: Dict, ids: seq<string>): Dict
    decreases |ids|
  {
    if ids == [] then d else WithoutAll(Without(d, ids[0]), ids[1..])
  }

  /** Drops the first `n` records of a kind. */
  function DropKind(d: Dict, k: Kind, n: nat): Dict {
    if d == [] || n == 0 then d else if IsKind(d[0], k) then DropKind(d[1..], k, n - 1) else [d[0]] + DropKind(d[1..], k, n)
  }

  function Excess(d: Dict, k: Kind, max: nat): nat { if Count(d, k) > max then Count(d, k) - max else 0 }

  lemma {:induction false} IdsCount(d: Dict, k: Kind)
    ensures |IdsOf(d, k)| == Count(d, k) && forall id :: id in IdsOf(d, k) ==> HasId(d, id)
  {
    if d != [] {
      IdsCount(d[1..], k);
      forall id | id in IdsOf(d, k) ensures HasId(d, id) {
        if id in IdsOf(d[1..], k) {
          var x :| x in d[1..] && x.id == id;
          assert x in d;
        } else {
          assert d[0] in d && d[0].id == id;
        }
      }
    }
  }

  lemma {:induction false} WithoutBehind(head: Entry, rest: Dict, ids: seq<string>)
    requires head.id !in ids
    ensures WithoutAll([head] + rest, ids) == [head] + WithoutAll(rest, ids)
    decreases |ids|
  {
    if ids != [] {
      assert ([head] + rest)[1..] == rest;
      WithoutBehind(head, Without(rest, ids[0]), ids[1..]);
    }
  }

  /** Deleting the ids of the oldest records one by one drops exactly those. */
  lemma {:induction false} DeletingDrops(d: Dict, k: Kind, n: nat)
    requires Distinct(d) && n <= Count(d, k)
    ensures |IdsOf(d, k)| == Count(d, k) && WithoutAll(d, IdsOf(d, k)[..n]) == DropKind(d, k, n)
  {
    IdsCount(d, k);
    var ids := IdsOf(d, k)[..n];
    if n > 0 {
      var head, rest := d[0], d[1..];
      IdsCount(rest, k);
      if IsKind(head, k) {
        assert ids[0] == head.id && ids[1..] == IdsOf(rest, k)[..n - 1];
        assert Without(d, head.id) == rest;
        DeletingDrops(rest, k, n - 1);
      } else {
        assert d == [head] + rest;
        WithoutBehind(head, rest, ids);
        DeletingDrops(rest, k, n);
      }
    } else {
      assert ids == [];
    }
  }

  lemma {:induction false} NotYetDropped(d: Dict, ks: set<Kind>, max: nat, k: Kind)
    requires Count(d, k) <= max
    ensures Kept(d, ks + {k}, max) == Kept(d, ks, max)
  {
    if d != [] {
      assert Count(d[1..], k) <= Count(d, k);
      NotYetDropped(d[1..], ks, max, k);
    }
  }

  /** Trimming one more kind. */
  lemma {:induction false} TrimOneMore(d: Dict, ks: set<Kind>, max: nat, k: Kind)
    requires k !in ks
    ensures DropKind(Kept(d, ks, max), k, Excess(d, k, max)) == Kept(d, ks + {k}, max)
  {
    if Count(d, k) <= max {
      NotYetDropped(d, ks, max, k);
    } else {
      TrimOneMore(d[1..], ks, max, k);
      if d[0].Record? && d[0].kind != k {
        assert Count(d, k) == Count(d[1..], k);
        assert d[0].kind in ks + {k} <==> d[0].kind in ks;
      }
      if IsKind(d[0], k) && Count(d[1..], k) == max {
        NotYetDropped(d[1..], ks, max, k);
      }
    }
  }

  lemma {:induction false} KeptIds(d: Dict, ks: set<Kind>, max: nat, k: Kind)
    requires k !in ks
    ensures IdsOf(Kept(d, ks, max), k) == IdsOf(d, k)
  {
    if d != [] {
      KeptIds(d[1..], ks, max, k);
      assert ([d[0]] + Kept(d[1..], ks, max))[1..] == Kept(d[1..], ks, max);
    }
  }

  lemma {:induction false} IdsAppend(d: Dict, x: Entry, k: Kind)
    ensures IdsOf(d + [x], k) == if IsKind(x, k) then IdsOf(d, k) + [x.id] else IdsOf(d, k)
  {
    if d != [] {
      assert (d + [x])[1..] == d[1..] + [x];
      IdsAppend(d[1..], x, k);
    }
  }

  lemma {:induction false} NoIdsNoKind(d: Dict, ks: set<Kind>, max: nat)
    requires forall k :: k !in ks ==> IdsOf(d, k) == []
    ensures Kept(d, ks, max) == Kept(d, KINDS, max)
  {
    if d != [] {
      forall k | k !in ks ensures IdsOf(d[1..], k) == [] {}
      if d[0].Record? { assert IsKind(d[0], d[0].kind); }
      NoIdsNoKind(d[1..], ks, max);
    }
  }

  /** The ids of each kind seen so far, kinds in order of appearance. */
  ghost predicate Grouped(d: Dict, kinds: seq<Kind>, perKind: map<Kind, seq<string>>) {
    && (forall k :: k in kinds <==> k in perKind)
    && (forall k :: k in perKind ==> perKind[k] == IdsOf(d, k))
    && (forall k :: k !in perKind ==> IdsOf(d, k) == [])
    && (forall i, j :: 0 <= i < j < |kinds| ==> kinds[i] != kinds[j])
  }

  method GroupByKind(d: Dict) returns (kinds: seq<Kind>, perKind: map<Kind, seq<string>>)
    requires forall x :: x in d ==> x.Record?
    ensures Grouped(d, kinds, perKind)
  {
    kinds, perKind := [], map[];
    for i := 0 to |d|
      invariant Grouped(d[..i], kinds, perKind)
    {
      var x := d[i];
      assert d[..i + 1] == d[..i] + [x];
      forall k { IdsAppend(d[..i], x, k); }
      if x.kind !in perKind {
        kinds, perKind := kinds + [x.kind], perKind[x.kind := []];
      }
      perKind := perKind[x.kind := perKind[x.kind] + [x.id]];
    }
    assert d[..|d|] == d;
  }

  method DeleteAll(d: Dict, ids: seq<string>) returns (left: Dict)
    ensures left == WithoutAll(d, ids)
  {
    left := d;
    for i := 0 to |ids|
      invariant WithoutAll(left, ids[i..]) == WithoutAll(d, ids)
    {
      assert ids[i..][1..] == ids[i + 1..];
      left := Without(left, ids[i]);
    }
  }

  lemma TrimStep(d: Dict, ks: set<Kind>, max: nat, k: Kind)
    requires Distinct(d) && k !in ks
    ensures var ids := IdsOf(d, k);
      var over := if |ids| > max then |ids| - max else 0;
      WithoutAll(Kept(d, ks, max), ids[..over]) == Kept(d, ks + {k}, max)
  {
    KeptIsPart(d, ks, max);
    KeptIds(d, ks, max, k);
    KeptCounts(d, ks, max, k);
    IdsCount(d, k);
    DeletingDrops(Kept(d, ks, max), k, Excess(d, k, max));
    TrimOneMore(d, ks, max, k);
  }

  lemma {:induction false} KeptNothing(d: Dict, max: nat)
    ensures Kept(d, {}, max) == d
  {
    if d != [] { KeptNothing(d[1..], max); }
  }

  function KindsOf(ks: seq<Kind>): set<Kind> { set k | k in ks }

  /** The surplus ids of one kind. */
  function Surplus(ids: seq<string>, max: nat): seq<string> { ids[..if |ids| > max then |ids| - max else 0] }

  lemma TrimNext(d: Dict, kinds: seq<Kind>, perKind: map<Kind, seq<string>>, i: nat, max: nat)
    requires Distinct(d) && Grouped(d, kinds, perKind) && i < |kinds|
    ensures kinds[i] in perKind
    ensures WithoutAll(Kept(d, KindsOf(kinds[..i]), max), Surplus(perKind[kinds[i]], max)) == Kept(d, KindsOf(kinds[..i + 1]), max)
  {
    var k := kinds[i];
    assert k in kinds && k in perKind;
    assert k !in KindsOf(kinds[..i]);
    assert KindsOf(kinds[..i + 1]) == KindsOf(kinds[..i]) + {k} by { assert kinds[..i + 1] == kinds[..i] + [k]; }
    TrimStep(d, KindsOf(kinds[..i]), max, k);
  }

  lemma TrimAll(d: Dict, kinds: seq<Kind>, perKind: map<Kind, seq<string>>, max: nat)
    requires Grouped(d, kinds, perKind)
    ensures Kept(d, KindsOf(kinds[..0]), max) == d && Kept(d, KindsOf(kinds[..|kinds|]), max) == Kept(d, KINDS, max)
  {
    KeptNothing(d, max);
    assert KindsOf(kinds[..0]) == {} && kinds[..|kinds|] == kinds;
    NoIdsNoKind(d, KindsOf(kinds), max);
  }

  /** `_evict_records`: groups the ids by kind, then deletes the oldest of each. */
  method EvictRecords(d: Dict, max: nat) returns (left: Dict)
    requires Distinct(d) && forall x :: x in d ==> x.Record?
    ensures left == Kept(d, KINDS, max)
  {
    var kinds, perKind := GroupByKind(d);
    left := d;
    TrimAll(d, kinds, perKind, max);
    for i := 0 to |kinds|
      invariant left == Kept(d, KindsOf(kinds[..i]), max)
    {
      TrimNext(d, kinds, perKind, i, max);
      var ids := perKind[kinds[i]];
      left := DeleteAll(left, ids[..if |ids| > max then |ids| - max else 0]);
    }
  }

  // ---------------------------------------------------------- the text file ---

  /** Where `str.splitlines` breaks. */
  predicate IsBreak(c: char) {
    var n := c as int;
    10 <= n <= 13 || 28 <= n <= 30 || n == 0x85 || n == 0x2028 || n == 0x2029
  }

  predicate OneLine(s: string) { forall c <- s :: !IsBreak(c) }

  /** The length of the first line of `s`. */
  function FirstLine(s: string): (n: nat)
    ensures n <= |s| && (n < |s| ==> IsBreak(s[n]))
  {
    if s == "" || IsBreak(s[0]) then 0 else FirstLine(s[1..]) + 1
  }

  /** Where the second line of `s` starts: CR LF is one break. */
  function After(s: string): (m: nat)
    requires FirstLine(s) < |s|
    ensures FirstLine(s) < m <= |s|
  {
    var n := FirstLine(s);
    if s[n] == '\r' && n + 1 < |s| && s[n + 1] == '\n' then n + 2 else n + 1
  }

  /** `str.splitlines`: a final break starts no further line. */
  function Lines(s: string): seq<string>
    decreases |s|
  {
    if s == "" then []
    else if FirstLine(s) == |s| then [s]
    else [s[..FirstLine(s)]] + Lines(s[After(s)..])
  }

  datatype Line = Line(tag: Tag, item: Entry)

  /** One JSON object per line; `decode` is `None` for anything malformed. */
  datatype Codec = Codec(encode: Line -> string, decode: string -> Option<Line>)

  /** Record lines carry records. */
  predicate Fits(l: Line) { l.tag.RecordTag? ==> l.item.Record? }

  /** What the JSON encoding provides for such lines: an encoding starts and ends with a brace, so
      stripping leaves it alone; it decodes to what was encoded; and once it is cut
      at a line break no piece of it decodes. */
  ghost predicate Faithful(c: Codec) {
    forall l: Line | Fits(l) ::
      var text := c.encode(l);
      && text != "" && Strip(text) == text && c.decode(text) == Some(l)
      && (!OneLine(text) ==> forall piece <- Lines(text + "\n") :: c.decode(Strip(piece)).None?)
  }

  function Text(c: Codec, ls: seq<Line>): string {
    if ls == [] then "" else c.encode(ls[0]) + "\n" + Text(c, ls[1..])
  }

  function Tagged(tag: Tag, d: Dict): seq<Line> {
    if d == [] then [] else [Line(tag, d[0])] + Tagged(tag, d[1..])
  }

  function AllLines(s: Contents): seq<Line> {
    Tagged(RecordTag, s.records) + Tagged(ObjectTag, s.objects) + Tagged(RelationTag, s.relations)
      + Tagged(TrajectoryTag, s.trajectories)
  }

  function Insert(s: Contents, l: Line): Contents {
    match l.tag
    case RecordTag => s.(records := Put(s.records, l.item))
    case ObjectTag => s.(objects := Put(s.objects, l.item))
    case RelationTag => s.(relations := Put(s.relations, l.item))
    case TrajectoryTag => s.(trajectories := Put(s.trajectories, l.item))
  }

  datatype Loaded = Loaded(contents: Contents, dropped: nat)

  /** One line of the file, after what was read before it. */
  function ReadLine(c: Codec, line: string, so: Loaded): Loaded {
    var text := Strip(line);
    if text == "" then so
    else match c.decode(text)
      case None => so.(dropped := so.dropped + 1)
      case Some(l) => so.(contents := Insert(so.contents, l))
  }

  function ReadLines(c: Codec, lines: seq<string>, so: Loaded): Loaded
    decreases |lines|
  {
    if lines == [] then so else ReadLines(c, lines[1..], ReadLine(c, lines[0], so))
  }

  function InsertAll(s: Contents, ls: seq<Line>): Contents
    decreases |ls|
  {
    if ls == [] then s else InsertAll(Insert(s, ls[0]), ls[1..])
  }

  lemma BreaksExactly(c: char)
    ensures IsBreak(c) <==> c as int in {10, 11, 12, 13, 28, 29, 30, 0x85, 0x2028, 0x2029}
  {
  }

  lemma {:induction false} FirstBreakAt(a: string, b: string)
    requires OneLine(a) && b != "" && IsBreak(b[0])
    ensures FirstLine(a + b) == |a|
  {
    if a == "" {
      assert a + b == b;
    } else {
      assert (a + b)[1..] == a[1..] + b && (a + b)[0] == a[0];
      FirstBreakAt(a[1..], b);
    }
  }

  /** A LINE ends at its first break, which belongs to no line; CR LF is one break, any
      other character that breaks is one by itself. */
  lemma LinesExactly(a: string, c: char, rest: string)
    requires OneLine(a) && IsBreak(c)
    ensures c == '\r' && rest != "" && rest[0] == '\n' ==> Lines(a + [c] + rest) == [a] + Lines(rest[1..])
    ensures !(c == '\r' && rest != "" && rest[0] == '\n') ==> Lines(a + [c] + rest) == [a] + Lines(rest)
  {
    var s := a + [c] + rest;
    assert s == a + ([c] + rest);
    FirstBreakAt(a, [c] + rest);
    assert s[..|a|] == a && s[|a|] == c && s[|a| + 1..] == rest;
    if c == '\r' && rest != "" && rest[0] == '\n' {
      assert s[|a| + 1] == rest[0] && s[|a| + 2..] == rest[1..];
    }
  }

  predicate EndsLine(s: string) { s != "" && s[|s| - 1] == '\n' }

  /** After a text that ends its last line, the rest is cut independently. */
  lemma {:induction false} LinesOfConcat(s: string, b: string)
    requires EndsLine(s)
    ensures Lines(s + b) == Lines(s) + Lines(b)
    decreases |s|
  {
    FirstCut(s, b);
    var head, rest := s[..FirstLine(s)], s[After(s)..];
    LinesUnfold(s);
    LinesUnfold(s + b);
    if rest != "" {
      LinesOfConcat(rest, b);
      Shift(head, Lines(rest), Lines(b));
    } else {
      assert rest + b == b;
    }
  }

  lemma LinesUnfold(s: string)
    requires FirstLine(s) < |s|
    ensures Lines(s) == [s[..FirstLine(s)]] + Lines(s[After(s)..])
  {
  }

  lemma Shift(head: string, xs: seq<string>, ys: seq<string>)
    ensures [head] + (xs + ys) == ([head] + xs) + ys
  {
  }

  lemma FirstCut(s: string, b: string)
    requires EndsLine(s)
    ensures var n := FirstLine(s);
      && FirstLine(s + b) == n < |s| && After(s + b) == After(s)
      && (s + b)[..n] == s[..n] && (s + b)[After(s)..] == s[After(s)..] + b
      && (After(s) < |s| ==> EndsLine(s[After(s)..]))
  {
    FirstLineOfConcat(s, b);
  }

  lemma {:induction false} FirstLineOfConcat(s: string, b: string)
    requires EndsLine(s)
    ensures FirstLine(s + b) == FirstLine(s) < |s|
    decreases |s|
  {
    if !IsBreak(s[0]) {
      assert (s + b)[1..] == s[1..] + b;
      FirstLineOfConcat(s[1..], b);
    }
  }

  lemma {:induction false} OneLineLines(a: string)
    requires OneLine(a)
    ensures Lines(a + "\n") == [a]
  {
    FirstLineWhole(a);
    assert (a + "\n")[..|a|] == a && (a + "\n")[|a| + 1..] == "";
  }

  lemma {:induction false} FirstLineWhole(a: string)
    requires OneLine(a)
    ensures FirstLine(a + "\n") == |a|
  {
    if a != "" {
      assert (a + "\n")[1..] == a[1..] + "\n" && (a + "\n")[0] == a[0];
      FirstLineWhole(a[1..]);
    }
  }

  lemma {:induction false} ReadConcat(c: Codec, xs: seq<string>, ys: seq<string>, so: Loaded)
    ensures ReadLines(c, xs + ys, so) == ReadLines(c, ys, ReadLines(c, xs, so))
    decreases |xs|
  {
    if xs == [] {
      assert xs + ys == ys;
    } else {
      assert (xs + ys)[1..] == xs[1..] + ys;
      ReadConcat(c, xs[1..], ys, ReadLine(c, xs[0], so));
    }
  }

  function NonBlank(lines: seq<string>): nat {
    if lines == [] then 0 else (if Blank(lines[0]) then 0 else 1) + NonBlank(lines[1..])
  }

  lemma {:induction false} ReadJunk(c: Codec, lines: seq<string>, so: Loaded)
    requires forall line <- lines :: c.decode(Strip(line)).None?
    ensures ReadLines(c, lines, so) == so.(dropped := so.dropped + NonBlank(lines))
    decreases |lines|
  {
    if lines != [] { ReadJunk(c, lines[1..], ReadLine(c, lines[0], so)); }
  }

  function Whole(c: Codec, ls: seq<Line>): seq<Line> {
    if ls == [] then [] else if OneLine(c.encode(ls[0])) then [ls[0]] + Whole(c, ls[1..]) else Whole(c, ls[1..])
  }

  /** How many lines the encodings that hold a line break fall into. */
  function Shards(c: Codec, ls: seq<Line>): nat {
    if ls == [] then 0
    else
      var text := c.encode(ls[0]);
      if OneLine(text) then Shards(c, ls[1..]) else NonBlank(Lines(text + "\n")) + Shards(c, ls[1..])
  }

  /** Reading back what was written inserts, in order, exactly the items whose
      encoding is one line, loses the others, and counts every shard of theirs. */
  lemma {:induction false} ReadBack(c: Codec, ls: seq<Line>, so: Loaded)
    requires Faithful(c) && Typed(ls)
    ensures ReadLines(c, Lines(Text(c, ls)), so) == Loaded(InsertAll(so.contents, Whole(c, ls)), so.dropped + Shards(c, ls))
    decreases |ls|
  {
    if ls != [] {
      assert Fits(ls[0]) by { assert ls[0] in ls; }
      var text := c.encode(ls[0]);
      var so' := ReadLines(c, Lines(text + "\n"), so);
      assert text + "\n" + Text(c, ls[1..]) == (text + "\n") + Text(c, ls[1..]);
      LinesOfConcat(text + "\n", Text(c, ls[1..]));
      ReadConcat(c, Lines(text + "\n"), Lines(Text(c, ls[1..])), so);
      ReadBack(c, ls[1..], so');
      if OneLine(text) {
        OneLineLines(text);
        assert so' == ReadLine(c, text, so) by { assert [text][1..] == []; }
        assert Whole(c, ls)[1..] == Whole(c, ls[1..]);
      } else {
        ReadJunk(c, Lines(text + "\n"), so);
      }
    }
  }

  /** A broken encoding leaves at least one shard: what it starts with. */
  lemma BrokenCounts(text: string)
    requires text != "" && Strip(text) == text && !OneLine(text)
    ensures NonBlank(Lines(text + "\n")) >= 1
  {
    var whole := text + "\n";
    assert !IsSpace(text[0]) by { assert |StripLeft(text)| == |text|; }
    var n := FirstLine(whole);
    assert whole[0] == text[0] && n > 0;
    var head := whole[..n];
    assert head[0] == text[0];
    SolidStart(head);
    FirstBreak(text);
    assert Lines(whole)[0] == head;
  }

  lemma FirstBreak(text: string)
    requires !OneLine(text)
    ensures FirstLine(text + "\n") < |text|
  {
    if !IsBreak(text[0]) {
      assert (text + "\n")[1..] == text[1..] + "\n";
      FirstBreak(text[1..]);
    }
  }

  lemma {:induction false} SolidStart(s: string)
    requires s != "" && !IsSpace(s[0])
    ensures !Blank(s)
    decreases |s|
  {
    if IsSpace(s[|s| - 1]) { SolidStart(s[..|s| - 1]); }
  }

  /** No loss goes uncounted, and nothing else is counted. */
  lemma {:induction false} LossesAreCounted(c: Codec, ls: seq<Line>)
    requires Faithful(c) && Typed(ls)
    ensures |Whole(c, ls)| <= |ls| <= |Whole(c, ls)| + Shards(c, ls)
    ensures Shards(c, ls) == 0 <==> Whole(c, ls) == ls
  {
    if ls != [] {
      assert Fits(ls[0]) by { assert ls[0] in ls; }
      LossesAreCounted(c, ls[1..]);
      if OneLine(c.encode(ls[0])) {
        assert ([ls[0]] + Whole(c, ls[1..]))[1..] == Whole(c, ls[1..]);
      } else {
        BrokenCounts(c.encode(ls[0]));
      }
    }
  }

  function WholeItems(c: Codec, tag: Tag, d: Dict): Dict {
    if d == [] then []
    else if OneLine(c.encode(Line(tag, d[0]))) then [d[0]] + WholeItems(c, tag, d[1..])
    else WholeItems(c, tag, d[1..])
  }

  function WholeContents(c: Codec, s: Contents): Contents {
    Contents(WholeItems(c, RecordTag, s.records), WholeItems(c, ObjectTag, s.objects),
             WholeItems(c, RelationTag, s.relations), WholeItems(c, TrajectoryTag, s.trajectories))
  }

  lemma {:induction false} WholeTagged(c: Codec, tag: Tag, d: Dict)
    ensures Whole(c, Tagged(tag, d)) == Tagged(tag, WholeItems(c, tag, d))
  {
    if d != [] {
      assert Tagged(tag, d)[1..] == Tagged(tag, d[1..]);
      WholeTagged(c, tag, d[1..]);
      var r := WholeItems(c, tag, d[1..]);
      assert ([d[0]] + r)[1..] == r;
    }
  }

  lemma {:induction false} WholeConcat(c: Codec, xs: seq<Line>, ys: seq<Line>)
    ensures Whole(c, xs + ys) == Whole(c, xs) + Whole(c, ys)
  {
    if xs == [] {
      assert xs + ys == ys;
    } else {
      assert (xs + ys)[1..] == xs[1..] + ys;
      WholeConcat(c, xs[1..], ys);
    }
  }

  lemma WholeAllLines(c: Codec, s: Contents)
    ensures Whole(c, AllLines(s)) == AllLines(WholeContents(c, s))
  {
    var r, o, l, t := Tagged(RecordTag, s.records), Tagged(ObjectTag, s.objects),
                      Tagged(RelationTag, s.relations), Tagged(TrajectoryTag, s.trajectories);
    WholeConcat(c, r + o + l, t);
    WholeConcat(c, r + o, l);
    WholeConcat(c, r, o);
    WholeTagged(c, RecordTag, s.records);
    WholeTagged(c, ObjectTag, s.objects);
    WholeTagged(c, RelationTag, s.relations);
    WholeTagged(c, TrajectoryTag, s.trajectories);
  }

  lemma {:induction false} WholeItemsDistinct(c: Codec, tag: Tag, d: Dict)
    ensures Distinct(d) ==> Distinct(WholeItems(c, tag, d))
    ensures forall x :: x in WholeItems(c, tag, d) ==> x in d
    ensures |WholeItems(c, tag, d)| <= |d|
  {
    if d != [] {
      WholeItemsDistinct(c, tag, d[1..]);
      var r := WholeItems(c, tag, d[1..]);
      assert ([d[0]] + r)[1..] == r;
    }
  }

  lemma {:induction false} WholeItemsSame(c: Codec, tag: Tag, d: Dict)
    ensures WholeItems(c, tag, d) == d <==> forall x <- d :: OneLine(c.encode(Line(tag, x)))
  {
    if d != [] {
      WholeItemsSame(c, tag, d[1..]);
      WholeItemsDistinct(c, tag, d[1..]);
      var r := WholeItems(c, tag, d[1..]);
      assert d == [d[0]] + d[1..];
      assert ([d[0]] + r)[1..] == r;
      if OneLine(c.encode(Line(tag, d[0]))) {
        if forall x <- d[1..] :: OneLine(c.encode(Line(tag, x))) {
          forall x | x in d ensures OneLine(c.encode(Line(tag, x))) {}
        }
      } else {
        assert d[0] in d;
      }
    }
  }

  function DictOf(s: Contents, tag: Tag): Dict {
    match tag
    case RecordTag => s.records case ObjectTag => s.objects case RelationTag => s.relations case TrajectoryTag => s.trajectories
  }

  function WithDict(s: Contents, tag: Tag, d: Dict): Contents {
    match tag
    case RecordTag => s.(records := d) case ObjectTag => s.(objects := d)
    case RelationTag => s.(relations := d) case TrajectoryTag => s.(trajectories := d)
  }

  function PutAll(before: Dict, d: Dict): Dict
    decreases |d|
  {
    if d == [] then before else PutAll(Put(before, d[0]), d[1..])
  }

  lemma StillFresh(before: Dict, d: Dict)
    requires d != [] && Distinct(d) && forall x <- d :: !HasId(before, x.id)
    ensures forall x <- d[1..] :: !HasId(before + [d[0]], x.id)
  {
    forall x | x in d[1..] ensures !HasId(before + [d[0]], x.id) {
      assert x in d;
      assert !HasId(d[1..], d[0].id);
    }
  }

  /** New items, put in order, are appended. */
  lemma {:induction false} PutAllNew(before: Dict, d: Dict)
    requires Distinct(d) && forall x <- d :: !HasId(before, x.id)
    ensures PutAll(before, d) == before + d
    decreases |d|
  {
    if d != [] {
      assert d[0] in d;
      PutNew(before, d[0]);
      StillFresh(before, d);
      PutAllNew(before + [d[0]], d[1..]);
    }
  }

  lemma {:induction false} InsertIntoOne(s: Contents, tag: Tag, d: Dict)
    ensures InsertAll(s, Tagged(tag, d)) == WithDict(s, tag, PutAll(DictOf(s, tag), d))
    decreases |d|
  {
    if d != [] {
      assert Tagged(tag, d)[1..] == Tagged(tag, d[1..]);
      InsertIntoOne(Insert(s, Line(tag, d[0])), tag, d[1..]);
    }
  }

  /** Items of one dictionary, read in order, are appended to what is there. */
  lemma InsertTagged(s: Contents, tag: Tag, d: Dict)
    requires Distinct(d) && forall x <- d :: !HasId(DictOf(s, tag), x.id)
    ensures InsertAll(s, Tagged(tag, d)) == WithDict(s, tag, DictOf(s, tag) + d)
  {
    InsertIntoOne(s, tag, d);
    PutAllNew(DictOf(s, tag), d);
  }

  lemma {:induction false} InsertConcat(s: Contents, xs: seq<Line>, ys: seq<Line>)
    ensures InsertAll(s, xs + ys) == InsertAll(InsertAll(s, xs), ys)
    decreases |xs|
  {
    if xs == [] {
      assert xs + ys == ys;
    } else {
      assert (xs + ys)[1..] == xs[1..] + ys;
      InsertConcat(Insert(s, xs[0]), xs[1..], ys);
    }
  }

  ghost predicate AllDistinct(s: Contents) {
    Distinct(s.records) && Distinct(s.objects) && Distinct(s.relations) && Distinct(s.trajectories)
  }

  lemma InsertAllLines(s: Contents)
    requires AllDistinct(s)
    ensures InsertAll(NOTHING, AllLines(s)) == s
  {
    var r, o, l, t := Tagged(RecordTag, s.records), Tagged(ObjectTag, s.objects),
                      Tagged(RelationTag, s.relations), Tagged(TrajectoryTag, s.trajectories);
    InsertConcat(NOTHING, r + o + l, t);
    InsertConcat(NOTHING, r + o, l);
    InsertConcat(NOTHING, r, o);
    InsertTagged(NOTHING, RecordTag, s.records);
    var s1 := Contents([] + s.records, [], [], []);
    InsertTagged(s1, ObjectTag, s.objects);
    var s2 := Contents([] + s.records, [] + s.objects, [], []);
    InsertTagged(s2, RelationTag, s.relations);
    InsertTagged(Contents([] + s.records, [] + s.objects, [] + s.relations, []), TrajectoryTag, s.trajectories);
  }

  function LoadText(c: Codec, text: string): Loaded { ReadLines(c, Lines(text), Loaded(NOTHING, 0)) }

  function Size(s: Contents): nat { |s.records| + |s.objects| + |s.relations| + |s.trajectories| }

  lemma {:induction false} TaggedMeaning(tag: Tag, d: Dict)
    ensures |Tagged(tag, d)| == |d|
    ensures (tag.RecordTag? ==> forall x <- d :: x.Record?) ==> Typed(Tagged(tag, d))
  {
    if d != [] { TaggedMeaning(tag, d[1..]); }
  }

  lemma AllLinesMeaning(s: Contents)
    ensures |AllLines(s)| == Size(s)
    ensures (forall x <- s.records :: x.Record?) ==> Typed(AllLines(s))
  {
    TaggedMeaning(RecordTag, s.records);
    TaggedMeaning(ObjectTag, s.objects);
    TaggedMeaning(RelationTag, s.relations);
    TaggedMeaning(TrajectoryTag, s.trajectories);
  }

  /** What a store holds: each id once, and records among the records. */
  ghost predicate Storable(s: Contents) { AllDistinct(s) && forall x <- s.records :: x.Record? }

  /** LOADING WHAT WAS PERSISTED gives back, in the same four dictionaries and the
      same order, exactly the items whose encoding is a single line; the counter
      counts the shards of the others, at least one for each and nothing else ... */
  lemma PersistedLoads(c: Codec, s: Contents)
    requires Faithful(c) && Storable(s)
    ensures LoadText(c, Text(c, AllLines(s))) == Loaded(WholeContents(c, s), Shards(c, AllLines(s)))
    ensures Size(WholeContents(c, s)) <= Size(s) <= Size(WholeContents(c, s)) + Shards(c, AllLines(s))
    ensures Shards(c, AllLines(s)) == 0 <==> WholeContents(c, s) == s
  {
    AllLinesMeaning(s);
    AllLinesMeaning(WholeContents(c, s));
    ReadBack(c, AllLines(s), Loaded(NOTHING, 0));
    WholeAllLines(c, s);
    LossesAreCounted(c, AllLines(s));
    WholeItemsDistinct(c, RecordTag, s.records);
    WholeItemsDistinct(c, ObjectTag, s.objects);
    WholeItemsDistinct(c, RelationTag, s.relations);
    WholeItemsDistinct(c, TrajectoryTag, s.trajectories);
    InsertAllLines(WholeContents(c, s));
    InsertAllLines(s);
  }

  /** ... so the round trip is the identity exactly when no item's encoding holds a
      line break. */
  lemma RoundTripExactly(c: Codec, s: Contents)
    requires Faithful(c) && Storable(s)
    ensures LoadText(c, Text(c, AllLines(s))) == Loaded(s, 0) <==>
      && (forall x <- s.records :: OneLine(c.encode(Line(RecordTag, x))))
      && (forall x <- s.objects :: OneLine(c.encode(Line(ObjectTag, x))))
      && (forall x <- s.relations :: OneLine(c.encode(Line(RelationTag, x))))
      && (forall x <- s.trajectories :: OneLine(c.encode(Line(TrajectoryTag, x))))
  {
    PersistedLoads(c, s);
    WholeItemsSame(c, RecordTag, s.records);
    WholeItemsSame(c, ObjectTag, s.objects);
    WholeItemsSame(c, RelationTag, s.relations);
    WholeItemsSame(c, TrajectoryTag, s.trajectories);
  }

  function Joined(tags: seq<string>): string { if tags == [] then "" else tags[0] + Joined(tags[1..]) }

  /** Every text an entry stores. */
  function TextOf(x: Entry): string {
    if x.Other? then x.id + x.data
    else x.id + x.content + Joined(x.tags) + (if x.supersededBy.Some? then x.supersededBy.value else "") + x.rest
  }

  /** The line breaks that JSON leaves unescaped: U+0085, U+2028 and U+2029. */
  predicate Unescaped(c: char) { c as int == 0x85 || c as int == 0x2028 || c as int == 0x2029 }

  /** `ensure_ascii=False` escapes control characters and nothing else that breaks. */
  ghost predicate EscapesControls(c: Codec) {
    forall l: Line, ch: char :: IsBreak(ch) ==> (ch in c.encode(l) <==> Unescaped(ch) && ch in TextOf(l.item))
  }

  predicate Plain(x: Entry) { forall ch <- TextOf(x) :: !Unescaped(ch) }

  lemma PlainIsOneLine(c: Codec, l: Line)
    requires EscapesControls(c)
    ensures OneLine(c.encode(l)) <==> Plain(l.item)
  {
    if !Plain(l.item) {
      var ch :| ch in TextOf(l.item) && Unescaped(ch);
      assert IsBreak(ch) && ch in c.encode(l);
    }
  }

  /** THE ROUND TRIP, as a caller can check it: what is loaded is what was stored,
      with nothing dropped, exactly when no stored text contains U+0085, U+2028 or
      U+2029. */
  lemma RoundTripByText(c: Codec, s: Contents)
    requires Faithful(c) && EscapesControls(c) && Storable(s)
    ensures LoadText(c, Text(c, AllLines(s))) == Loaded(s, 0) <==>
      && (forall x <- s.records :: Plain(x)) && (forall x <- s.objects :: Plain(x))
      && (forall x <- s.relations :: Plain(x)) && (forall x <- s.trajectories :: Plain(x))
  {
    RoundTripExactly(c, s);
    forall tag, x ensures OneLine(c.encode(Line(tag, x))) <==> Plain(x) { PlainIsOneLine(c, Line(tag, x)); }
  }

  function Decoded(c: Codec, lines: seq<string>): seq<Line> {
    if lines == [] then []
    else match c.decode(Strip(lines[0]))
      case Some(l) => if Strip(lines[0]) == "" then Decoded(c, lines[1..]) else [l] + Decoded(c, lines[1..])
      case None => Decoded(c, lines[1..])
  }

  function Malformed(c: Codec, lines: seq<string>): nat {
    if lines == [] then 0
    else (if !Blank(lines[0]) && c.decode(Strip(lines[0])).None? then 1 else 0) + Malformed(c, lines[1..])
  }

  /** ANY FILE loads: blank lines are skipped, exactly the malformed lines are
      dropped and counted, and the others are inserted in order. */
  lemma {:induction false} LoadMeaning(c: Codec, lines: seq<string>, so: Loaded)
    ensures ReadLines(c, lines, so) ==
      Loaded(InsertAll(so.contents, Decoded(c, lines)), so.dropped + Malformed(c, lines))
    decreases |lines|
  {
    if lines != [] {
      LoadMeaning(c, lines[1..], ReadLine(c, lines[0], so));
      if Strip(lines[0]) != "" && c.decode(Strip(lines[0])).Some? {
        assert Decoded(c, lines)[1..] == Decoded(c, lines[1..]);
      }
    }
  }

  lemma InsertDistinct(s: Contents, l: Line)
    requires AllDistinct(s)
    ensures AllDistinct(Insert(s, l))
    ensures (l.tag.RecordTag? ==> l.item.Record?) && (forall x <- s.records :: x.Record?) ==>
      forall x <- Insert(s, l).records :: x.Record?
  {
    PutDistinct(DictOf(s, l.tag), l.item);
  }

  lemma {:induction false} InsertKeepsDistinct(s: Contents, ls: seq<Line>)
    requires AllDistinct(s)
    ensures AllDistinct(InsertAll(s, ls))
    decreases |ls|
  {
    if ls != [] {
      InsertDistinct(s, ls[0]);
      InsertKeepsDistinct(Insert(s, ls[0]), ls[1..]);
    }
  }

  /** Lines tagged as records validate as records. */
  ghost predicate WellTyped(c: Codec) {
    forall text :: var l := c.decode(text); l.Some? && l.value.tag.RecordTag? ==> l.value.item.Record?
  }

  predicate Typed(ls: seq<Line>) { forall l <- ls :: Fits(l) }

  lemma {:induction false} DecodedTyped(c: Codec, lines: seq<string>)
    requires WellTyped(c)
    ensures Typed(Decoded(c, lines))
  {
    if lines != [] { DecodedTyped(c, lines[1..]); }
  }

  lemma {:induction false} InsertKeepsRecords(s: Contents, ls: seq<Line>)
    requires AllDistinct(s) && Typed(ls) && forall x <- s.records :: x.Record?
    ensures forall x <- InsertAll(s, ls).records :: x.Record?
    decreases |ls|
  {
    if ls != [] {
      assert ls[0] in ls;
      InsertDistinct(s, ls[0]);
      InsertKeepsRecords(Insert(s, ls[0]), ls[1..]);
    }
  }

  // ------------------------------------------------------ the live object ---

  lemma {:induction false} WriteKeepsDistinct(d: Dict, x: Entry, max: nat)
    requires Distinct(d) && x.Record? && forall y <- d :: y.Record?
    ensures Distinct(Put(d, x)) && Distinct(Write(d, x, max)) && forall y <- Write(d, x, max) :: y.Record?
    ensures forall y <- Put(d, x) :: y.Record?
  {
    PutDistinct(d, x);
    KeptIsPart(Put(d, x), KINDS, max);
  }

  lemma {:induction false} DistinctSuffix(d: Dict, i: nat)
    requires Distinct(d) && i <= |d|
    ensures Distinct(d[i..])
    decreases i
  {
    if i > 0 {
      assert d[1..][i - 1..] == d[i..];
      DistinctSuffix(d[1..], i - 1);
    } else {
      assert d[i..] == d;
    }
  }

  lemma CappedDistinct(d: Dict, max: nat)
    requires Distinct(d)
    ensures Distinct(Capped(d, max))
  {
    DistinctSuffix(d, if |d| > max then |d| - max else 0);
    assert d[0..] == d;
  }

  /** What an upsert into one of the other dictionaries leaves. */
  function Upserted(d: Dict, x: Entry, max: nat): Dict { Capped(Put(d, x), max) }

  lemma UpsertedDistinct(d: Dict, x: Entry, max: nat)
    requires Distinct(d)
    ensures Distinct(Upserted(d, x, max))
  {
    var e := Put(d, x);
    assert Distinct(e) by { PutDistinct(d, x); }
    CappedDistinct(e, max);
  }

  class JsonlMemoryStore {
    const max: nat
    const codec: Codec
    const scrub: string -> string
    var records: Dict
    var objects: Dict
    var relations: Dict
    var trajectories: Dict
    var droppedInvalidLines: nat
    /** The text at the path; `None` while there is no file. */
    var file: Option<string>

    ghost function View(): Contents
      reads this
    {
      Contents(records, objects, relations, trajectories)
    }

    ghost predicate Valid()
      reads this
    {
      max >= 1 && Storable(View())
    }

    /** Opens the store on whatever is at the path. */
    constructor (max: nat, codec: Codec, scrub: string -> string, file: Option<string>)
      ensures this.max == max && this.codec == codec && this.scrub == scrub && this.file == file
      ensures file.None? ==> View() == NOTHING && droppedInvalidLines == 0
      ensures file.Some? ==> Loaded(View(), droppedInvalidLines) == LoadText(codec, file.value)
      ensures AllDistinct(View())
      ensures max >= 1 && WellTyped(codec) ==> Valid()
    {
      this.max, this.codec, this.scrub, this.file := max, codec, scrub, file;
      records, objects, relations, trajectories, droppedInvalidLines := [], [], [], [], 0;
      new;
      if file.Some? {
        LoadMeaning(codec, Lines(file.value), Loaded(NOTHING, 0));
        InsertKeepsDistinct(NOTHING, Decoded(codec, Lines(file.value)));
        if WellTyped(codec) {
          DecodedTyped(codec, Lines(file.value));
          InsertKeepsRecords(NOTHING, Decoded(codec, Lines(file.value)));
        }
        Load(file.value);
      }
    }

    /** `_load`, line by line. */
    method Load(text: string)
      modifies this
      ensures Loaded(View(), droppedInvalidLines) == ReadLines(codec, Lines(text), Loaded(NOTHING, old(droppedInvalidLines)))
      ensures file == old(file)
    {
      records, objects, relations, trajectories := [], [], [], [];
      var lines := Lines(text);
      ghost var start := Loaded(NOTHING, droppedInvalidLines);
      for i := 0 to |lines|
        invariant ReadLines(codec, lines[i..], Loaded(View(), droppedInvalidLines)) == ReadLines(codec, lines, start)
        invariant file == old(file)
      {
        assert lines[i..][1..] == lines[i + 1..];
        LoadLine(lines[i]);
      }
    }

    method LoadLine(line: string)
      modifies this
      ensures Loaded(View(), droppedInvalidLines) == ReadLine(codec, line, Loaded(old(View()), old(droppedInvalidLines)))
      ensures file == old(file)
    {
      var text := Strip(line);
      if text == "" { return; }
      var decoded := codec.decode(text);
      if decoded.None? {
        droppedInvalidLines := droppedInvalidLines + 1;
        return;
      }
      var item := decoded.value.item;
      match decoded.value.tag {
        case RecordTag => records := Put(records, item);
        case ObjectTag => objects := Put(objects, item);
        case RelationTag => relations := Put(relations, item);
        case TrajectoryTag => trajectories := Put(trajectories, item);
      }
    }

    method AppendDict(text: string, tag: Tag, d: Dict) returns (out: string)
      ensures out == text + Text(codec, Tagged(tag, d))
    {
      out := text;
      for i := 0 to |d|
        invariant out + Text(codec, Tagged(tag, d[i..])) == text + Text(codec, Tagged(tag, d))
      {
        assert d[i..][1..] == d[i + 1..];
        assert Tagged(tag, d[i..])[1..] == Tagged(tag, d[i + 1..]);
        OneMoreLine(out, codec.encode(Line(tag, d[i])), Text(codec, Tagged(tag, d[i + 1..])));
        out := out + codec.encode(Line(tag, d[i])) + "\n";
      }
    }

    /** `_persist`: rewrites the whole file from the four dictionaries. */
    method Persist()
      modifies this`file
      ensures file == Some(Text(codec, AllLines(View())))
    {
      var text := AppendDict("", RecordTag, records);
      text := AppendDict(text, ObjectTag, objects);
      text := AppendDict(text, RelationTag, relations);
      text := AppendDict(text, TrajectoryTag, trajectories);
      TextOfAllLines(codec, View());
      assert "" + Text(codec, Tagged(RecordTag, records)) == Text(codec, Tagged(RecordTag, records));
      file := Some(text);
    }

    method WriteRecord(x: Entry) returns (stored: Entry)
      requires Valid() && x.Record?
      modifies this
      ensures Valid() && stored == Scrubbed(scrub, x)
      ensures View() == old(View()).(records := Write(old(records), stored, max))
      ensures file == Some(Text(codec, AllLines(View()))) && droppedInvalidLines == old(droppedInvalidLines)
    {
      stored := Scrubbed(scrub, x);
      WriteKeepsDistinct(records, stored, max);
      var d := EvictRecords(Put(records, stored), max);
      records := d;
      Persist();
    }

    method UpsertObject(x: Entry) returns (stored: Entry)
      requires Valid()
      modifies this
      ensures Valid() && stored == Scrubbed(scrub, x)
      ensures View() == old(View()).(objects := Upserted(old(objects), stored, max))
      ensures file == Some(Text(codec, AllLines(View()))) && droppedInvalidLines == old(droppedInvalidLines)
    {
      stored := Scrubbed(scrub, x);
      UpsertedDistinct(objects, stored, max);
      var d := DropOldest(Put(objects, stored));
      objects := d;
      Persist();
    }

    method UpsertRelation(x: Entry) returns (stored: Entry)
      requires Valid()
      modifies this
      ensures Valid() && stored == Scrubbed(scrub, x)
      ensures View() == old(View()).(relations := Upserted(old(relations), stored, max))
      ensures file == Some(Text(codec, AllLines(View()))) && droppedInvalidLines == old(droppedInvalidLines)
    {
      stored := Scrubbed(scrub, x);
      UpsertedDistinct(relations, stored, max);
      var d := DropOldest(Put(relations, stored));
      relations := d;
      Persist();
    }

    method UpsertTrajectory(x: Entry) returns (stored: Entry)
      requires Valid()
      modifies this
      ensures Valid() && stored == Scrubbed(scrub, x)
      ensures View() == old(View()).(trajectories := Upserted(old(trajectories), stored, max))
      ensures file == Some(Text(codec, AllLines(View()))) && droppedInvalidLines == old(droppedInvalidLines)
    {
      stored := Scrubbed(scrub, x);
      UpsertedDistinct(trajectories, stored, max);
      var d := DropOldest(Put(trajectories, stored));
      trajectories := d;
      Persist();
    }

    /** The cap loop of the other dictionaries: the oldest goes while there are too many. */
    method DropOldest(d: Dict) returns (left: Dict)
      ensures left == Capped(d, max)
    {
      left := d;
      ghost var gone := 0;
      while |left| > max
        invariant gone <= |d| && left == d[gone..]
        invariant gone == 0 || |left| >= max
        decreases |left|
      {
        assert left[1..] == d[gone + 1..];
        left := Without(left, left[0].id);
        gone := gone + 1;
      }
      assert d[0..] == d && (|d| > max ==> gone == |d| - max);
    }
  }

  lemma OneMoreLine(before: string, line: string, rest: string)
    ensures before + (line + "\n" + rest) == (before + line + "\n") + rest
  {
  }

  lemma {:induction false} TextConcat(c: Codec, xs: seq<Line>, ys: seq<Line>)
    ensures Text(c, xs + ys) == Text(c, xs) + Text(c, ys)
  {
    if xs == [] {
      assert xs + ys == ys;
    } else {
      assert (xs + ys)[1..] == xs[1..] + ys;
      TextConcat(c, xs[1..], ys);
    }
  }

  lemma TextOfAllLines(c: Codec, s: Contents)
    ensures Text(c, AllLines(s)) == Text(c, Tagged(RecordTag, s.records)) + Text(c, Tagged(ObjectTag, s.objects))
      + Text(c, Tagged(RelationTag, s.relations)) + Text(c, Tagged(TrajectoryTag, s.trajectories))
  {
    var r, o, l, t := Tagged(RecordTag, s.records), Tagged(ObjectTag, s.objects),
                      Tagged(RelationTag, s.relations), Tagged(TrajectoryTag, s.trajectories);
    TextConcat(c, r + o + l, t);
    TextConcat(c, r + o, l);
    TextConcat(c, r, o);
  }
}
