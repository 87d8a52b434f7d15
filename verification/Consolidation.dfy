/** Consolidation: near-duplicate memories are superseded, never deleted. */
module Consolidation {
  import opened Common
  import opened MemoryStore

  // --------------------------------------------------------- supersession ---

  /** What one supersession leaves; `done` tells whether the link was stored. */
  datatype Superseding = Superseding(records: Dict, relations: Dict, done: bool)

  function Find(d: Dict, id: string): (r: Option<Entry>)
    ensures r.Some? ==> r.value in d && r.value.id == id
    ensures r.None? ==> !HasId(d, id)
  {
    if d == [] then None else if d[0].id == id then Some(d[0]) else Find(d[1..], id)
  }

  function Replaced(x: Entry, heir: string): Entry
    requires x.Record?
  {
    x.(superseded := true, supersededBy := Some(heir))
  }

  predicate Refused(d: Dict, oldId: string, heir: Entry)
    requires heir.Record?
  {
    oldId == heir.id || Find(d, oldId).None? || !IsKind(Find(d, oldId).value, heir.kind) || heir.superseded
  }

  /** One call of `supersede`; `link` draws the relation between the two records. */
  function Supersede(s: Superseding, max: nat, scrub: string -> string, link: (string, string) -> Entry, oldId: string, heir: Entry): Superseding
    requires heir.Record?
  {
    if Refused(s.records, oldId, heir) then s.(done := false)
    else
      var prior := Find(s.records, oldId).value;
      var records := Write(Write(s.records, Scrubbed(scrub, heir), max), Scrubbed(scrub, Replaced(prior, heir.id)), max);
      // a blank id makes the supersession record invalid, after both writes
      if Blank(oldId) || Blank(heir.id) then Superseding(records, s.relations, false)
      else Superseding(records, Upserted(s.relations, Scrubbed(scrub, link(heir.id, oldId)), max), true)
  }

  lemma {:induction false} FindNone(d: Dict, id: string)
    ensures Find(d, id).None? <==> forall x <- d :: x.id != id
  {
    if d != [] {
      FindNone(d[1..], id);
      assert d[0] in d && forall x :: x in d <==> x == d[0] || x in d[1..];
    }
  }

  /** WHEN A SUPERSESSION IS REFUSED: for a record by itself, for one that is not there
      or of another kind, and by a superseded one; nothing is written then.  Otherwise
      both records are written, and the relation unless one of the ids is blank. */
  lemma SupersedeExactly(s: Superseding, max: nat, scrub: string -> string, link: (string, string) -> Entry, oldId: string, heir: Entry)
    requires heir.Record?
    ensures var r := Supersede(s, max, scrub, link, oldId, heir);
      if oldId == heir.id || Find(s.records, oldId).None? || !IsKind(Find(s.records, oldId).value, heir.kind) || heir.superseded then
        r == Superseding(s.records, s.relations, false)
      else
        var prior := Find(s.records, oldId).value;
        var marked := prior.(superseded := true, supersededBy := Some(heir.id));
        && r.records == Write(Write(s.records, Scrubbed(scrub, heir), max), Scrubbed(scrub, marked), max)
        && r.done == (!Blank(oldId) && !Blank(heir.id))
        && r.relations == if r.done then Upserted(s.relations, Scrubbed(scrub, link(heir.id, oldId)), max) else s.relations
  {
  }

  // ------------------------------------------------------- near duplicates ---

  predicate Near(lower: string -> string, a: Entry, b: Entry)
    requires a.Record? && b.Record?
  {
    a.kind == b.kind &&
    var x, y := lower(Strip(a.content)), lower(Strip(b.content));
    x == y || (|x| > 10 && Occurs(x, y)) || (|y| > 10 && Occurs(y, x))
  }

  predicate Live(x: Entry) { x.Record? && !x.superseded }

  /** The pairs a pass supersedes: both live, near-duplicate. */
  predicate Dup(lower: string -> string, a: Entry, b: Entry) {
    Live(a) && Live(b) && Near(lower, a, b)
  }

  function OfKind(d: Dict, k: Kind): Dict {
    if d == [] then [] else if IsKind(d[0], k) then [d[0]] + OfKind(d[1..], k) else OfKind(d[1..], k)
  }

  function Time(x: Entry): int { if x.Record? then x.createdAt else 0 }

  function Place(x: Entry, d: Dict): Dict {
    if d == [] || Time(x) <= Time(d[0]) then [x] + d else [d[0]] + Place(x, d[1..])
  }

  /** Python's stable `sort` by creation time. */
  function Sorted(d: Dict): Dict {
    if d == [] then [] else Place(d[0], Sorted(d[1..]))
  }

  // -------------------------------------------------- what one pass decides ---

  /** The LAST record in `later` that duplicates `x`. */
  function LastDup(lower: string -> string, later: Dict, x: Entry): Option<string> {
    if later == [] then None
    else
      var rest := LastDup(lower, later[1..], x);
      if rest.Some? then rest else if Dup(lower, x, later[0]) then Some(later[0].id) else None
  }

  /** Within one time-ordered kind, what supersedes the record `id`. */
  function Successor(lower: string -> string, ks: Dict, id: string): Option<string> {
    if ks == [] then None
    else if ks[0].id == id then LastDup(lower, ks[1..], ks[0])
    else Successor(lower, ks[1..], id)
  }

  function Link(lower: string -> string, d: Dict, x: Entry): Option<string> {
    if !x.Record? || x.kind == Working then None else Successor(lower, Sorted(OfKind(d, x.kind)), x.id)
  }

  type Links = map<string, string>

  function Mark(x: Entry, m: Links): (r: Entry)
    ensures r.id == x.id && Time(r) == Time(x) && (r.Record? <==> x.Record?) && forall k :: IsKind(r, k) <==> IsKind(x, k)
  {
    if x.Record? && x.id in m then Replaced(x, m[x.id]) else x
  }

  function Marked(d: Dict, m: Links): (r: Dict)
    ensures |r| == |d|
  {
    if d == [] then [] else [Mark(d[0], m)] + Marked(d[1..], m)
  }

  /** All links of one kind. */
  function Table(lower: string -> string, ks: Dict): Links {
    if ks == [] then map[]
    else match LastDup(lower, ks[1..], ks[0])
      case None => Table(lower, ks[1..])
      case Some(heir) => Table(lower, ks[1..])[ks[0].id := heir]
  }

  function KindLinks(lower: string -> string, d: Dict, k: Kind): Links {
    if k == Working then map[] else Table(lower, Sorted(OfKind(d, k)))
  }

  function AllLinks(lower: string -> string, d: Dict): Links {
    KindLinks(lower, d, Episodic) + KindLinks(lower, d, Semantic) + KindLinks(lower, d, Procedural)
  }

  /** THE PASS, in closed form: every record stays where it is, and a live record of
      a non-working kind that has later live near-duplicates is marked as
      superseded by the last of them. */
  function Consolidated(lower: string -> string, d: Dict): Dict { Marked(d, AllLinks(lower, d)) }

  // ------------------------------------------------- what one pass reports ---

  /** Two record ids, in the order the pass reports them. */
  datatype Pair = Pair(first: string, second: string)

  /** The superseded pairs (heir, old) and the contradictions (earlier, later). */
  datatype Report = Report(superseded: seq<Pair>, contradictions: seq<Pair>)

  const NO_REPORT := Report([], [])

  /** The texts are folded by `lower`; `conflict` is the contradiction heuristic. */
  datatype Rules = Rules(lower: string -> string, conflict: (Entry, Entry) -> bool)

  /** Superseding is reported unless a blank id makes its record invalid. */
  predicate Supersedes(rules: Rules, x: Entry, y: Entry) {
    Dup(rules.lower, x, y) && !Blank(x.id) && !Blank(y.id)
  }

  predicate Contradicts(rules: Rules, x: Entry, y: Entry) {
    Live(x) && Live(y) && !Supersedes(rules, x, y) && rules.conflict(x, y)
  }

  function Compare(rules: Rules, rep: Report, x: Entry, y: Entry): Report {
    if Supersedes(rules, x, y) then rep.(superseded := rep.superseded + [Pair(y.id, x.id)])
    else if Contradicts(rules, x, y) then rep.(contradictions := rep.contradictions + [Pair(x.id, y.id)])
    else rep
  }

  function CompareRow(rules: Rules, rep: Report, x: Entry, later: Dict): Report {
    if later == [] then rep
    else Compare(rules, CompareRow(rules, rep, x, later[..|later| - 1]), x, later[|later| - 1])
  }

  /** The first `n` rows of the comparison table of one kind. */
  function CompareRows(rules: Rules, rep: Report, ks: Dict, n: nat): Report
    requires n <= |ks|
  {
    if n == 0 then rep else CompareRow(rules, CompareRows(rules, rep, ks, n - 1), ks[n - 1], ks[n..])
  }

  function CompareKinds(rules: Rules, d: Dict, kinds: seq<Kind>): Report {
    if kinds == [] then NO_REPORT
    else
      var rep, k := CompareKinds(rules, d, kinds[..|kinds| - 1]), kinds[|kinds| - 1];
      var ks := Sorted(OfKind(d, k));
      if k == Working then rep else CompareRows(rules, rep, ks, |ks|)
  }

  /** The kinds of the records, in order of first appearance. */
  function KindsIn(d: Dict): seq<Kind> {
    if d == [] then []
    else
      var before, x := KindsIn(d[..|d| - 1]), d[|d| - 1];
      if !x.Record? || x.kind in before then before else before + [x.kind]
  }

  /** What a pass over `d` reports. */
  function Reported(rules: Rules, d: Dict): Report { CompareKinds(rules, d, KindsIn(d)) }

  /** One relation per reported pair, in order. */
  function Related(relations: Dict, pairs: seq<Pair>, link: (string, string) -> Entry, scrub: string -> string, max: nat): Dict {
    if pairs == [] then relations
    else
      var n := |pairs| - 1;
      Upserted(Related(relations, pairs[..n], link, scrub, max), Scrubbed(scrub, link(pairs[n].first, pairs[n].second)), max)
  }

  // -------------------------------------------------------- basic lemmas ---

  lemma {:induction false} OfKindMeaning(d: Dict, k: Kind)
    ensures forall x :: x in OfKind(d, k) <==> x in d && IsKind(x, k)
    ensures Distinct(d) ==> Distinct(OfKind(d, k))
  {
    if d != [] {
      OfKindMeaning(d[1..], k);
      assert forall x :: x in d <==> x == d[0] || x in d[1..];
      assert ([d[0]] + OfKind(d[1..], k))[1..] == OfKind(d[1..], k);
    }
  }

  ghost predicate InOrder(d: Dict) {
    d != [] ==> (forall y <- d[1..] :: Time(d[0]) <= Time(y)) && InOrder(d[1..])
  }

  lemma {:induction false} PlaceMeaning(x: Entry, d: Dict)
    ensures forall y :: y in Place(x, d) <==> y == x || y in d
    ensures Distinct(d) && !HasId(d, x.id) ==> Distinct(Place(x, d))
    ensures InOrder(d) ==> InOrder(Place(x, d))
  {
    if d != [] {
      assert forall y :: y in d <==> y == d[0] || y in d[1..];
      if Time(x) <= Time(d[0]) {
        assert ([x] + d)[1..] == d;
      } else {
        PlaceMeaning(x, d[1..]);
        assert ([d[0]] + Place(x, d[1..]))[1..] == Place(x, d[1..]);
      }
    } else {
      assert [x][1..] == [];
    }
  }

  lemma {:induction false} SortedMeaning(d: Dict)
    ensures forall y :: y in Sorted(d) <==> y in d
    ensures Distinct(d) ==> Distinct(Sorted(d))
    ensures InOrder(Sorted(d))
  {
    if d != [] {
      SortedMeaning(d[1..]);
      PlaceMeaning(d[0], Sorted(d[1..]));
      assert forall x :: x in d <==> x == d[0] || x in d[1..];
    }
  }

  lemma {:induction false} SameId(d: Dict, x: Entry, y: Entry)
    requires Distinct(d) && x in d && y in d && x.id == y.id
    ensures x == y
  {
    if x == d[0] || y == d[0] {
      assert !HasId(d[1..], d[0].id);
    } else {
      SameId(d[1..], x, y);
    }
  }

  lemma {:induction false} MarkedMeaning(d: Dict, m: Links)
    ensures forall y :: y in Marked(d, m) ==> exists x <- d :: y == Mark(x, m)
    ensures forall x :: x in d ==> Mark(x, m) in Marked(d, m)
  {
    if d != [] {
      MarkedMeaning(d[1..], m);
      forall y | y in Marked(d, m) ensures exists x <- d :: y == Mark(x, m) {
        if y == Mark(d[0], m) {
          assert d[0] in d;
        } else {
          var x :| x in d[1..] && y == Mark(x, m);
          assert x in d;
        }
      }
    }
  }

  lemma {:induction false} MarkedDistinct(d: Dict, m: Links)
    ensures Distinct(d) ==> Distinct(Marked(d, m))
    ensures forall id :: HasId(Marked(d, m), id) ==> HasId(d, id)
    ensures forall k :: Count(Marked(d, m), k) == Count(d, k)
  {
    if d != [] {
      MarkedDistinct(d[1..], m);
      var r := Marked(d, m);
      assert r[1..] == Marked(d[1..], m);
      forall id | HasId(r, id) ensures HasId(d, id) {
        if HasId(r[1..], id) {
          var x :| x in d[1..] && x.id == id;
          assert x in d;
        } else {
          assert d[0] in d;
        }
      }
    }
  }

  lemma {:induction false} MarkedOfKind(d: Dict, k: Kind, m: Links)
    ensures OfKind(Marked(d, m), k) == Marked(OfKind(d, k), m)
  {
    if d != [] {
      MarkedOfKind(d[1..], k, m);
      assert Marked(d, m)[1..] == Marked(d[1..], m);
      assert ([d[0]] + OfKind(d[1..], k))[1..] == OfKind(d[1..], k);
    }
  }

  lemma {:induction false} MarkedPlace(x: Entry, d: Dict, m: Links)
    ensures Marked(Place(x, d), m) == Place(Mark(x, m), Marked(d, m))
  {
    if d != [] {
      assert Marked(d, m)[1..] == Marked(d[1..], m);
      if Time(x) <= Time(d[0]) {
        assert ([x] + d)[1..] == d;
      } else {
        MarkedPlace(x, d[1..], m);
        assert ([d[0]] + Place(x, d[1..]))[1..] == Place(x, d[1..]);
      }
    } else {
      assert [x][1..] == [];
    }
  }

  lemma {:induction false} MarkedSorted(d: Dict, m: Links)
    ensures Sorted(Marked(d, m)) == Marked(Sorted(d), m)
  {
    if d != [] {
      assert Marked(d, m)[1..] == Marked(d[1..], m);
      MarkedSorted(d[1..], m);
      MarkedPlace(d[0], Sorted(d[1..]), m);
    }
  }

  /** The records of one time, in their order. */
  function AtTime(d: Dict, time: int): Dict {
    if d == [] then [] else if Time(d[0]) == time then [d[0]] + AtTime(d[1..], time) else AtTime(d[1..], time)
  }

  lemma {:induction false} PlaceIsStable(x: Entry, d: Dict, time: int)
    ensures AtTime(Place(x, d), time) == if Time(x) == time then [x] + AtTime(d, time) else AtTime(d, time)
  {
    if d == [] || Time(x) <= Time(d[0]) {
      assert ([x] + d)[1..] == d;
    } else {
      PlaceIsStable(x, d[1..], time);
      assert ([d[0]] + Place(x, d[1..]))[1..] == Place(x, d[1..]);
    }
  }

  /** Records of equal time keep their order. */
  lemma {:induction false} SortIsStable(d: Dict, time: int)
    ensures AtTime(Sorted(d), time) == AtTime(d, time)
  {
    if d != [] {
      SortIsStable(d[1..], time);
      PlaceIsStable(d[0], Sorted(d[1..]), time);
    }
  }

  // ----------------------------------------------------------- the links ---

  lemma {:induction false} LastDupMeaning(lower: string -> string, later: Dict, x: Entry)
    ensures var r := LastDup(lower, later, x);
      && (r.None? ==> forall y <- later :: !Dup(lower, x, y))
      && (r.Some? ==> exists y <- later :: y.id == r.value && Dup(lower, x, y))
  {
    if later != [] {
      LastDupMeaning(lower, later[1..], x);
      if LastDup(lower, later[1..], x).Some? {
        var y :| y in later[1..] && y.id == LastDup(lower, later[1..], x).value && Dup(lower, x, y);
        assert y in later;
      } else if Dup(lower, x, later[0]) {
        assert later[0] in later;
      }
    }
  }

  lemma {:induction false} TableMeaning(lower: string -> string, ks: Dict, id: string)
    requires Distinct(ks)
    ensures var t := Table(lower, ks);
      && (id in t <==> Successor(lower, ks, id).Some?)
      && (id in t ==> t[id] == Successor(lower, ks, id).value && HasId(ks, id))
  {
    if ks != [] {
      TableMeaning(lower, ks[1..], id);
      if id in Table(lower, ks[1..]) {
        var x :| x in ks[1..] && x.id == id;
        assert x in ks && ks[0].id != id;
      } else {
        assert ks[0] in ks;
      }
    }
  }

  lemma KindLinksMeaning(lower: string -> string, d: Dict, k: Kind, x: Entry)
    requires Distinct(d) && x in d && x.Record?
    ensures var t := KindLinks(lower, d, k);
      && (x.id in t <==> x.kind == k && Link(lower, d, x).Some?)
      && (x.id in t ==> t[x.id] == Link(lower, d, x).value)
  {
    if k != Working {
      var ks := Sorted(OfKind(d, k));
      OfKindMeaning(d, k);
      SortedMeaning(OfKind(d, k));
      TableMeaning(lower, ks, x.id);
      if x.kind != k && x.id in Table(lower, ks) {
        var y :| y in ks && y.id == x.id;
        SameId(d, x, y);
        assert false;
      }
    }
  }

  /** The links of all kinds, record by record. */
  lemma AllLinksMeaning(lower: string -> string, d: Dict, x: Entry)
    requires Distinct(d) && x in d && x.Record?
    ensures var m := AllLinks(lower, d);
      && (x.id in m <==> Link(lower, d, x).Some?)
      && (x.id in m ==> m[x.id] == Link(lower, d, x).value)
  {
    KindLinksMeaning(lower, d, Episodic, x);
    KindLinksMeaning(lower, d, Semantic, x);
    KindLinksMeaning(lower, d, Procedural, x);
  }

  // -------------------------------------------------------- main theorems ---

  lemma NearSymmetric(lower: string -> string, a: Entry, b: Entry)
    ensures Dup(lower, a, b) <==> Dup(lower, b, a)
  {
  }

  /** WHAT A PASS TAKES FOR A DUPLICATE: two records of one kind, neither superseded,
      whose contents, stripped and folded, are equal, or one of which, longer than ten
      characters, stands somewhere in the other. */
  lemma DupExactly(lower: string -> string, a: Entry, b: Entry)
    ensures Dup(lower, a, b) <==>
      && a.Record? && b.Record? && !a.superseded && !b.superseded && a.kind == b.kind
      && var x, y := lower(Strip(a.content)), lower(Strip(b.content));
         || x == y
         || (|x| > 10 && exists before, after :: y == before + x + after)
         || (|y| > 10 && exists before, after :: x == before + y + after)
  {
    if a.Record? && b.Record? {
      OccursMeaning(lower(Strip(a.content)), lower(Strip(b.content)));
      OccursMeaning(lower(Strip(b.content)), lower(Strip(a.content)));
    }
  }

  lemma {:induction false} DeadHasNoDup(lower: string -> string, later: Dict, x: Entry)
    requires !Live(x)
    ensures LastDup(lower, later, x) == None
  {
    if later != [] { DeadHasNoDup(lower, later[1..], x); }
  }

  lemma {:induction false} MarkedLastDup(lower: string -> string, later: Dict, x: Entry, m: Links)
    requires LastDup(lower, later, x) == None
    ensures LastDup(lower, Marked(later, m), x) == None
  {
    if later != [] {
      assert Marked(later, m)[1..] == Marked(later[1..], m);
      MarkedLastDup(lower, later[1..], x, m);
    }
  }

  /** Once every record with a successor is marked, no record has one. */
  lemma {:induction false} MarkedTable(lower: string -> string, ks: Dict, m: Links)
    requires Distinct(ks) && forall x <- ks :: x.Record? && (x.id in m <==> Successor(lower, ks, x.id).Some?)
    ensures Table(lower, Marked(ks, m)) == map[]
  {
    if ks != [] {
      var head, tail := ks[0], ks[1..];
      assert Marked(ks, m)[1..] == Marked(tail, m);
      assert head in ks;
      forall x | x in tail ensures x in ks && Successor(lower, tail, x.id) == Successor(lower, ks, x.id) {
        assert !HasId(tail, head.id);
      }
      MarkedTable(lower, tail, m);
      if head.id in m {
        DeadHasNoDup(lower, Marked(tail, m), Mark(head, m));
      } else {
        MarkedLastDup(lower, tail, head, m);
      }
    }
  }

  lemma KindSettled(lower: string -> string, d: Dict, k: Kind)
    requires Distinct(d) && k != Working
    ensures Table(lower, Sorted(OfKind(Consolidated(lower, d), k))) == map[]
  {
    var m := AllLinks(lower, d);
    var ks := Sorted(OfKind(d, k));
    OfKindMeaning(d, k);
    SortedMeaning(OfKind(d, k));
    MarkedOfKind(d, k, m);
    MarkedSorted(OfKind(d, k), m);
    forall x | x in ks ensures x.Record? && (x.id in m <==> Successor(lower, ks, x.id).Some?) {
      AllLinksMeaning(lower, d, x);
    }
    MarkedTable(lower, ks, m);
  }

  lemma TableHead(lower: string -> string, ks: Dict)
    requires ks != []
    ensures LastDup(lower, ks[1..], ks[0]).Some? ==> ks[0].id in Table(lower, ks)
    ensures LastDup(lower, ks[1..], ks[0]).None? ==> Table(lower, ks) == Table(lower, ks[1..])
  {
  }

  lemma {:induction false} EmptyTableNoDups(lower: string -> string, ks: Dict, x: Entry, y: Entry)
    requires Distinct(ks) && Table(lower, ks) == map[] && x in ks && y in ks && x != y
    ensures !Dup(lower, x, y)
  {
    var head, tail := ks[0], ks[1..];
    TableHead(lower, ks);
    LastDupMeaning(lower, tail, head);
    if x == head {
    } else if y == head {
      NearSymmetric(lower, x, y);
    } else {
      EmptyTableNoDups(lower, tail, x, y);
    }
  }

  /** NO DUPLICATES LEFT: after a pass, live records of a non-working kind are
      pairwise not near-duplicates. */
  lemma NoDuplicatesLeft(lower: string -> string, d: Dict, x: Entry, y: Entry)
    requires Distinct(d) && x in Consolidated(lower, d) && y in Consolidated(lower, d) && x != y
    requires Live(x) && Live(y) && x.kind != Working
    ensures !Near(lower, x, y)
  {
    var c := Consolidated(lower, d);
    if y.kind == x.kind {
      MarkedDistinct(d, AllLinks(lower, d));
      OfKindMeaning(c, x.kind);
      SortedMeaning(OfKind(c, x.kind));
      KindSettled(lower, d, x.kind);
      EmptyTableNoDups(lower, Sorted(OfKind(c, x.kind)), x, y);
    }
  }

  lemma {:induction false} NoLinksNoMarks(d: Dict)
    ensures Marked(d, map[]) == d
  {
    if d != [] { NoLinksNoMarks(d[1..]); }
  }

  /** A SECOND PASS CHANGES NOTHING. */
  lemma SecondPassIsIdle(lower: string -> string, d: Dict)
    requires Distinct(d)
    ensures Consolidated(lower, Consolidated(lower, d)) == Consolidated(lower, d)
  {
    KindSettled(lower, d, Episodic);
    KindSettled(lower, d, Semantic);
    KindSettled(lower, d, Procedural);
    assert AllLinks(lower, Consolidated(lower, d)) == map[];
    NoLinksNoMarks(Consolidated(lower, d));
  }

  /** NOTHING IS LOST: every record is still there, in its old place, with every
      field but its supersession mark; the marked ones were live, are not working
      memory, and are those with a later live near-duplicate. */
  lemma {:induction false} NothingIsLost(lower: string -> string, d: Dict, p: nat)
    requires Distinct(d) && p < |d| && d[p].Record?
    ensures var c := Consolidated(lower, d);
      && |c| == |d|
      && c[p] == (if Link(lower, d, d[p]).None? then d[p] else d[p].(superseded := true, supersededBy := Link(lower, d, d[p])))
      && (Link(lower, d, d[p]).Some? ==> Live(d[p]) && d[p].kind != Working)
      && (Link(lower, d, d[p]).None? && Live(d[p]) && d[p].kind != Working ==>
            forall y <- d :: y.Record? && y.kind == d[p].kind && Time(y) > Time(d[p]) ==> !Dup(lower, d[p], y))
  {
    assert d[p] in d;
    AllLinksMeaning(lower, d, d[p]);
    MarkedAt(d, AllLinks(lower, d), p);
    if d[p].kind != Working {
      var ks := Sorted(OfKind(d, d[p].kind));
      OfKindMeaning(d, d[p].kind);
      SortedMeaning(OfKind(d, d[p].kind));
      LaterDuplicates(lower, ks, d[p]);
    }
  }

  lemma {:induction false} MarkedAt(d: Dict, m: Links, p: nat)
    requires p < |d|
    ensures Marked(d, m)[p] == Mark(d[p], m)
  {
    if p > 0 { MarkedAt(d[1..], m, p - 1); }
  }

  lemma {:induction false} LaterDuplicates(lower: string -> string, ks: Dict, x: Entry)
    requires Distinct(ks) && InOrder(ks) && x in ks
    ensures Successor(lower, ks, x.id).Some? ==> Live(x)
    ensures Successor(lower, ks, x.id).None? ==> forall y <- ks :: Time(y) > Time(x) ==> !Dup(lower, x, y)
  {
    var head, tail := ks[0], ks[1..];
    if head.id == x.id {
      SameId(ks, head, x);
      LastDupMeaning(lower, tail, x);
    } else {
      LaterDuplicates(lower, tail, x);
    }
  }

  // ----------------------------------------------------- following the marks ---

  /** Follows `superseded_by` for at most `n` steps. */
  function Follow(d: Dict, x: Entry, n: nat): Option<Entry>
    decreases n
  {
    if Live(x) then Some(x)
    else if n == 0 || !x.Record? || x.supersededBy.None? then None
    else match Find(d, x.supersededBy.value) case None => None case Some(y) => Follow(d, y, n - 1)
  }

  /** The part of the kind that starts at the record a link leads to. */
  lemma {:induction false} HeirAt(lower: string -> string, later: Dict, x: Entry) returns (rest: Dict)
    requires LastDup(lower, later, x).Some?
    ensures rest != [] && Suffix(rest, later)
    ensures rest[0].id == LastDup(lower, later, x).value && Dup(lower, x, rest[0]) && LastDup(lower, rest[1..], x).None?
  {
    if LastDup(lower, later[1..], x).Some? {
      rest := HeirAt(lower, later[1..], x);
    } else {
      rest := later;
    }
  }

  predicate Suffix(t: Dict, ks: Dict) { |t| <= |ks| && t == ks[|ks| - |t|..] }

  /** `m` holds exactly the links of the time-ordered kind `ks`. */
  ghost predicate LinksOf(lower: string -> string, ks: Dict, m: Links) {
    && Distinct(ks) && InOrder(ks)
    && forall x <- ks ::
        && (x.id in m <==> Successor(lower, ks, x.id).Some?)
        && (x.id in m ==> m[x.id] == Successor(lower, ks, x.id).value)
  }

  /** The suffix a link leads to. */
  lemma LinkedSuffix(lower: string -> string, ks: Dict, m: Links, t: Dict) returns (rest: Dict)
    requires LinksOf(lower, ks, m) && t != [] && Suffix(t, ks) && t[0].id in m
    ensures rest != [] && |rest| < |t| && Suffix(rest, ks)
    ensures Live(rest[0]) && Time(t[0]) <= Time(rest[0]) && rest[0].id == m[t[0].id]
  {
    InOrderSuffix(ks, t);
    assert t[0] in ks;
    SuccessorAtSuffix(lower, ks, t);
    rest := HeirAt(lower, t[1..], t[0]);
    assert rest[0] in t[1..] by { assert rest[0] == t[1..][|t| - 1 - |rest|]; }
    SuffixOfTail(rest, t, ks);
  }

  lemma SuffixOfTail(rest: Dict, t: Dict, ks: Dict)
    requires t != [] && Suffix(rest, t[1..]) && Suffix(t, ks)
    ensures Suffix(rest, ks)
  {
  }

  /** From any suffix of a kind, its first record leads to a live one. */
  lemma {:induction false} ChainFrom(lower: string -> string, ks: Dict, m: Links, c: Dict, t: Dict)
    requires LinksOf(lower, ks, m) && t != [] && Suffix(t, ks) && Live(t[0])
    requires forall x <- ks :: Find(c, x.id) == Some(Mark(x, m))
    ensures var r := Follow(c, Mark(t[0], m), |t|);
      r.Some? && Live(r.value) && Time(r.value) >= Time(t[0]) && exists y <- ks :: r.value == Mark(y, m)
    decreases |t|
  {
    var x := t[0];
    assert x in ks by { assert ks[|ks| - |t|] == x; }
    if x.id in m {
      var rest := LinkedSuffix(lower, ks, m, t);
      assert rest[0] in ks by { assert ks[|ks| - |rest|] == rest[0]; }
      ChainFrom(lower, ks, m, c, rest);
      FollowMore(c, Mark(rest[0], m), |rest|, |t| - 1);
    }
  }

  lemma {:induction false} InOrderSuffix(ks: Dict, t: Dict)
    requires InOrder(ks) && Suffix(t, ks)
    ensures InOrder(t)
    decreases |ks|
  {
    if |t| < |ks| {
      assert t == ks[1..][|ks| - 1 - |t|..];
      InOrderSuffix(ks[1..], t);
    } else {
      assert t == ks;
    }
  }

  lemma {:induction false} SuccessorAtSuffix(lower: string -> string, ks: Dict, t: Dict)
    requires Distinct(ks) && t != [] && Suffix(t, ks)
    ensures Successor(lower, ks, t[0].id) == LastDup(lower, t[1..], t[0])
    decreases |ks|
  {
    if |t| < |ks| {
      assert t == ks[1..][|ks| - 1 - |t|..];
      assert t[0] in ks[1..];
      SuccessorAtSuffix(lower, ks[1..], t);
    } else {
      assert t == ks;
    }
  }

  lemma {:induction false} FindMarked(d: Dict, m: Links, x: Entry)
    requires Distinct(d) && x in d
    ensures Find(Marked(d, m), x.id) == Some(Mark(x, m))
  {
    if x != d[0] {
      assert x in d[1..] && d[0].id != x.id;
      assert Marked(d, m)[1..] == Marked(d[1..], m);
      FindMarked(d[1..], m, x);
    }
  }

  lemma {:induction false} FollowMore(d: Dict, x: Entry, n: nat, n': nat)
    requires n <= n' && Follow(d, x, n).Some?
    ensures Follow(d, x, n') == Follow(d, x, n)
    decreases n
  {
    if !Live(x) { FollowMore(d, Find(d, x.supersededBy.value).value, n - 1, n' - 1); }
  }

  /** MARKS LEAD TO THE LIVING: following `superseded_by` from any record the pass
      superseded reaches, within as many steps as there are records of its kind, a
      live record of the same kind that is not older. */
  lemma MarksLeadToTheLiving(lower: string -> string, d: Dict, x: Entry)
    requires Distinct(d) && x in d && Live(x) && x.kind != Working
    ensures var c := Consolidated(lower, d);
      var r := Follow(c, Mark(x, AllLinks(lower, d)), |OfKind(d, x.kind)|);
      && r.Some? && r.value in c && Live(r.value) && r.value.kind == x.kind && r.value.createdAt >= x.createdAt
  {
    var m, c := AllLinks(lower, d), Consolidated(lower, d);
    var ks := Sorted(OfKind(d, x.kind));
    OfKindMeaning(d, x.kind);
    SortedMeaning(OfKind(d, x.kind));
    SortedLength(OfKind(d, x.kind));
    forall y | y in ks ensures Find(c, y.id) == Some(Mark(y, m)) { FindMarked(d, m, y); }
    KindHasItsLinks(lower, d, x.kind);
    var t := SuffixOf(ks, x);
    ChainFrom(lower, ks, m, c, t);
    FollowMore(c, Mark(x, m), |t|, |ks|);
    MarkedMeaning(d, m);
  }

  lemma KindHasItsLinks(lower: string -> string, d: Dict, k: Kind)
    requires Distinct(d) && k != Working
    ensures LinksOf(lower, Sorted(OfKind(d, k)), AllLinks(lower, d))
  {
    var ks := Sorted(OfKind(d, k));
    OfKindMeaning(d, k);
    SortedMeaning(OfKind(d, k));
    forall x | x in ks
      ensures x.id in AllLinks(lower, d) <==> Successor(lower, ks, x.id).Some?
      ensures x.id in AllLinks(lower, d) ==> AllLinks(lower, d)[x.id] == Successor(lower, ks, x.id).value
    {
      AllLinksMeaning(lower, d, x);
    }
  }

  lemma {:induction false} SuffixOf(ks: Dict, x: Entry) returns (t: Dict)
    requires x in ks
    ensures t != [] && Suffix(t, ks) && t[0] == x
  {
    if ks[0] == x {
      t := ks;
    } else {
      t := SuffixOf(ks[1..], x);
    }
  }

  lemma {:induction false} PlaceLength(x: Entry, d: Dict)
    ensures |Place(x, d)| == |d| + 1
  {
    if d != [] { PlaceLength(x, d[1..]); }
  }

  lemma {:induction false} SortedLength(d: Dict)
    ensures |Sorted(d)| == |d|
  {
    if d != [] {
      SortedLength(d[1..]);
      PlaceLength(d[0], Sorted(d[1..]));
    }
  }

  // -------------------------------------------------------- the live pass ---

  /** The store as writes leave it: within its caps, scrubbed, and with a heir only
      on superseded records. */
  ghost predicate Clean(d: Dict, max: nat, scrub: string -> string) {
    && Distinct(d) && WithinCaps(d, max)
    && forall x <- d :: x.Record? && Scrubbed(scrub, x) == x && (!x.superseded ==> x.supersededBy.None?)
  }

  ghost predicate Idempotent(scrub: string -> string) { forall t :: scrub(scrub(t)) == scrub(t) }

  lemma {:induction false} ScrubbedTwice(scrub: string -> string, tags: seq<string>)
    requires Idempotent(scrub)
    ensures ScrubTags(scrub, ScrubTags(scrub, tags)) == ScrubTags(scrub, tags)
  {
    if tags != [] {
      ScrubbedTwice(scrub, tags[1..]);
      assert ScrubTags(scrub, tags)[1..] == ScrubTags(scrub, tags[1..]);
    }
  }

  /** Being clean is no extra demand: it is what every write of a valid record keeps. */
  lemma WriteKeepsClean(d: Dict, x: Entry, max: nat, scrub: string -> string)
    requires Clean(d, max, scrub) && Idempotent(scrub)
    requires x.Record? && (!x.superseded ==> x.supersededBy.None?)
    ensures Clean(Write(d, Scrubbed(scrub, x), max), max, scrub)
  {
    var y := Scrubbed(scrub, x);
    ScrubbedTwice(scrub, x.tags);
    PutDistinct(d, y);
    KeptIsPart(Put(d, y), KINDS, max);
    forall k ensures Count(Write(d, y, max), k) <= max { WriteKeepsCaps(d, y, max, k); }
  }

  lemma {:induction false} PutPresent(d: Dict, x: Entry)
    requires Distinct(d) && x in d
    ensures Put(d, x) == d
  {
    if x != d[0] {
      assert x in d[1..] && d[0].id != x.id;
      PutPresent(d[1..], x);
    }
  }

  lemma {:induction false} MarkedUnaffected(d: Dict, m: Links, id: string, heir: string)
    requires !HasId(d, id)
    ensures Marked(d, m[id := heir]) == Marked(d, m)
  {
    if d != [] {
      assert d[0] in d;
      forall x | x in d[1..] ensures x.id != id { assert x in d; }
      MarkedUnaffected(d[1..], m, id, heir);
    }
  }

  lemma {:induction false} PutMark(d: Dict, m: Links, x: Entry, heir: string)
    requires Distinct(d) && x in d && x.Record?
    ensures Put(Marked(d, m), Replaced(Mark(x, m), heir)) == Marked(d, m[x.id := heir])
  {
    assert Marked(d, m)[1..] == Marked(d[1..], m);
    if x == d[0] {
      MarkedUnaffected(d[1..], m, x.id, heir);
    } else {
      assert x in d[1..] && d[0].id != x.id;
      PutMark(d[1..], m, x, heir);
    }
  }

  lemma MarkedCaps(d: Dict, m: Links, max: nat)
    requires WithinCaps(d, max)
    ensures Kept(Marked(d, m), KINDS, max) == Marked(d, m)
  {
    MarkedDistinct(d, m);
    forall k ensures Count(Marked(d, m), k) <= max { assert Count(d, k) <= max; }
    KeptIsAll(Marked(d, m), KINDS, max);
  }

  /** The two writes of a supersession, on a partly consolidated store: the stale
      copy of the heir overwrites its equal, the old record is marked in place, and
      nothing is evicted. */
  lemma TwoWrites(d: Dict, m: Links, max: nat, a: Entry, b: Entry)
    requires Distinct(d) && WithinCaps(d, max) && a in d && b in d && a.Record? && b.id !in m
    ensures Write(Write(Marked(d, m), b, max), Replaced(Mark(a, m), b.id), max) == Marked(d, m[a.id := b.id])
  {
    MarkedMeaning(d, m);
    MarkedDistinct(d, m);
    assert Mark(b, m) == b;
    PutPresent(Marked(d, m), b);
    MarkedCaps(d, m, max);
    PutMark(d, m, a, b.id);
    MarkedCaps(d, m[a.id := b.id], max);
  }

  /** Superseding one live record by another adds exactly one link. */
  lemma SupersedeMarks(s: Superseding, max: nat, scrub: string -> string, link: (string, string) -> Entry,
                       d: Dict, m: Links, a: Entry, b: Entry)
    requires Clean(d, max, scrub) && s.records == Marked(d, m)
    requires a in d && b in d && a.id != b.id && a.kind == b.kind && Live(b) && b.id !in m
    ensures var r := Supersede(s, max, scrub, link, a.id, b);
      && r.records == Marked(d, m[a.id := b.id])
      && r.done == (!Blank(a.id) && !Blank(b.id))
      && r.relations == if r.done then Upserted(s.relations, Scrubbed(scrub, link(b.id, a.id)), max) else s.relations
  {
    FindMarked(d, m, a);
    TwoWrites(d, m, max, a, b);
    ScrubbedMark(scrub, a, m, b.id);
  }

  lemma ScrubbedMark(scrub: string -> string, a: Entry, m: Links, heir: string)
    requires a.Record? && Scrubbed(scrub, a) == a
    ensures Scrubbed(scrub, Replaced(Mark(a, m), heir)) == Replaced(Mark(a, m), heir)
  {
  }

  method SupersedeIn(store: JsonlMemoryStore, link: (string, string) -> Entry, oldId: string, heir: Entry) returns (done: bool)
    requires store.Valid() && heir.Record?
    modifies store
    ensures store.Valid() && store.objects == old(store.objects) && store.trajectories == old(store.trajectories)
    ensures Superseding(store.records, store.relations, done) ==
      Supersede(Superseding(old(store.records), old(store.relations), done), store.max, store.scrub, link, oldId, heir)
  {
    if oldId == heir.id { return false; }
    var prior := Find(store.records, oldId);
    if prior.None? || prior.value.kind != heir.kind { return false; }
    if heir.superseded { return false; }
    var storedHeir := store.WriteRecord(heir);
    var marked := store.WriteRecord(Replaced(prior.value, storedHeir.id));
    if Blank(marked.id) || Blank(storedHeir.id) { return false; }
    var _ := store.UpsertRelation(link(storedHeir.id, marked.id));
    done := true;
  }

  function RowMap(m: Links, x: Entry, heir: Option<string>): Links {
    if heir.None? then m else m[x.id := heir.value]
  }

  lemma {:induction false} LastDupAppend(lower: string -> string, later: Dict, y: Entry, x: Entry)
    ensures LastDup(lower, later + [y], x) == if Dup(lower, x, y) then Some(y.id) else LastDup(lower, later, x)
  {
    if later == [] {
      assert later + [y] == [y];
    } else {
      assert (later + [y])[1..] == later[1..] + [y];
      LastDupAppend(lower, later[1..], y, x);
    }
  }

  lemma RowMapStep(lower: string -> string, later: Dict, y: Entry, x: Entry, m: Links, mj: Links) returns (next: Links)
    requires mj == RowMap(m, x, LastDup(lower, later, x))
    ensures next == if Dup(lower, x, y) then mj[x.id := y.id] else mj
    ensures next == RowMap(m, x, LastDup(lower, later + [y], x))
  {
    LastDupAppend(lower, later, y, x);
    next := if Dup(lower, x, y) then mj[x.id := y.id] else mj;
  }

  /** What a run of the pass knows: the store it found, the links and the report so far. */
  ghost predicate Passing(store: JsonlMemoryStore, d: Dict, m: Links, relations: Dict, rep: Report, link: (string, string) -> Entry)
    reads store
  {
    && store.Valid() && Clean(d, store.max, store.scrub) && store.records == Marked(d, m)
    && store.relations == Related(relations, rep.superseded, link, store.scrub, store.max)
  }

  lemma RelatedMore(relations: Dict, pairs: seq<Pair>, p: Pair, link: (string, string) -> Entry, scrub: string -> string, max: nat)
    ensures Related(relations, pairs + [p], link, scrub, max) ==
      Upserted(Related(relations, pairs, link, scrub, max), Scrubbed(scrub, link(p.first, p.second)), max)
  {
    assert (pairs + [p])[..|pairs|] == pairs;
  }

  /** One comparison: skipped unless both were live when the pass began. */
  method ConsolidatePair(store: JsonlMemoryStore, rules: Rules, link: (string, string) -> Entry, r1: Entry, r2: Entry, rep: Report,
                         ghost d: Dict, ghost m: Links, ghost relations: Dict) returns (out: Report)
    requires Passing(store, d, m, relations, rep, link)
    requires r1 in d && r2 in d && r1.id != r2.id && r2.id !in m
    modifies store
    ensures Passing(store, d, if Dup(rules.lower, r1, r2) then m[r1.id := r2.id] else m, relations, out, link)
    ensures out == Compare(rules, rep, r1, r2)
    ensures store.objects == old(store.objects) && store.trajectories == old(store.trajectories)
  {
    out := rep;
    if r1.superseded || r2.superseded { return; }
    if r1.supersededBy == Some(r2.id) || r2.supersededBy == Some(r1.id) { return; }
    if Near(rules.lower, r1, r2) {
      ghost var before := Superseding(store.records, store.relations, true);
      SupersedeMarks(before, store.max, store.scrub, link, d, m, r1, r2);
      SupersedeMarks(before.(done := false), store.max, store.scrub, link, d, m, r1, r2);
      var done := SupersedeIn(store, link, r1.id, r2);
      if done {
        RelatedMore(relations, rep.superseded, Pair(r2.id, r1.id), link, store.scrub, store.max);
        out := out.(superseded := out.superseded + [Pair(r2.id, r1.id)]);
        return;
      }
    }
    if rules.conflict(r1, r2) {
      out := out.(contradictions := out.contradictions + [Pair(r1.id, r2.id)]);
    }
  }

  /** One row of the comparison table. */
  method ConsolidateRow(store: JsonlMemoryStore, rules: Rules, link: (string, string) -> Entry, ks: Dict, i: nat, rep: Report,
                        ghost d: Dict, ghost m: Links, ghost relations: Dict) returns (out: Report)
    requires Passing(store, d, m, relations, rep, link)
    requires i < |ks| && Distinct(ks) && (forall x <- ks :: x in d)
    requires forall x <- ks[i + 1..] :: x.id !in m
    modifies store
    ensures Passing(store, d, RowMap(m, ks[i], LastDup(rules.lower, ks[i + 1..], ks[i])), relations, out, link)
    ensures out == CompareRow(rules, rep, ks[i], ks[i + 1..])
    ensures store.objects == old(store.objects) && store.trajectories == old(store.trajectories)
  {
    var r1 := ks[i];
    ghost var mj := m;
    out := rep;
    assert ks[i + 1..i + 1] == [];
    for j := i + 1 to |ks|
      invariant Passing(store, d, mj, relations, out, link)
      invariant store.objects == old(store.objects) && store.trajectories == old(store.trajectories)
      invariant mj == RowMap(m, r1, LastDup(rules.lower, ks[i + 1..j], r1)) && out == CompareRow(rules, rep, r1, ks[i + 1..j])
    {
      SliceGrows(ks, i + 1, j);
      PairReady(ks, i, j, d, m, LastDup(rules.lower, ks[i + 1..j], r1));
      CompareRowMore(rules, rep, r1, ks[i + 1..j], ks[j]);
      out := ConsolidatePair(store, rules, link, r1, ks[j], out, d, mj, relations);
      mj := RowMapStep(rules.lower, ks[i + 1..j], ks[j], r1, m, mj);
    }
    assert ks[i + 1..|ks|] == ks[i + 1..];
  }

  lemma CompareRowMore(rules: Rules, rep: Report, x: Entry, later: Dict, y: Entry)
    ensures CompareRow(rules, rep, x, later + [y]) == Compare(rules, CompareRow(rules, rep, x, later), x, y)
  {
    assert (later + [y])[..|later|] == later;
  }

  lemma SliceGrows(ks: Dict, i: nat, j: nat)
    requires i <= j < |ks|
    ensures ks[i..j + 1] == ks[i..j] + [ks[j]] && ks[j] in ks[i..]
  {
    assert ks[i..][j - i] == ks[j];
  }

  lemma PairReady(ks: Dict, i: nat, j: nat, d: Dict, m: Links, heir: Option<string>)
    requires i < j < |ks| && Distinct(ks) && (forall x <- ks :: x in d) && ks[j].id !in m
    ensures ks[i] in d && ks[j] in d && ks[i].id != ks[j].id && ks[j].id !in RowMap(m, ks[i], heir)
  {
    assert ks[i] in ks && ks[j] in ks;
    DistinctAt(ks, i, j);
  }

  lemma {:induction false} DistinctAt(ks: Dict, i: nat, j: nat)
    requires Distinct(ks) && i < j < |ks|
    ensures ks[i].id != ks[j].id
  {
    if i > 0 {
      DistinctAt(ks[1..], i - 1, j - 1);
    } else {
      assert ks[1..][j - 1] == ks[j] && ks[j] in ks[1..];
    }
  }

  /** What remains to be linked below row `i` commutes with row `i` itself. */
  lemma RowStep(lower: string -> string, ks: Dict, i: nat, m: Links)
    requires i < |ks| && Distinct(ks[i..])
    ensures RowMap(m, ks[i], LastDup(lower, ks[i + 1..], ks[i])) + Table(lower, ks[i + 1..]) == m + Table(lower, ks[i..])
    ensures Distinct(ks[i + 1..])
  {
    var t := ks[i..];
    assert t[1..] == ks[i + 1..] && t[0] == ks[i];
    TableMeaning(lower, t[1..], t[0].id);
  }

  /** The comparison table of one kind, row by row. */
  method ConsolidateKind(store: JsonlMemoryStore, rules: Rules, link: (string, string) -> Entry, ks: Dict, rep: Report,
                         ghost d: Dict, ghost m0: Links, ghost relations: Dict) returns (out: Report)
    requires Passing(store, d, m0, relations, rep, link)
    requires Distinct(ks) && (forall x <- ks :: x in d && x.id !in m0)
    modifies store
    ensures Passing(store, d, m0 + Table(rules.lower, ks), relations, out, link)
    ensures out == CompareRows(rules, rep, ks, |ks|)
    ensures store.objects == old(store.objects) && store.trajectories == old(store.trajectories)
  {
    ghost var m := m0;
    out := rep;
    assert ks[0..] == ks;
    for i := 0 to |ks|
      invariant Passing(store, d, m, relations, out, link)
      invariant store.objects == old(store.objects) && store.trajectories == old(store.trajectories)
      invariant m + Table(rules.lower, ks[i..]) == m0 + Table(rules.lower, ks) && out == CompareRows(rules, rep, ks, i)
      invariant forall x <- ks[i..] :: x.id !in m
    {
      DistinctSuffix(ks, i);
      RowStep(rules.lower, ks, i, m);
      LaterRowsFree(ks, i, m, LastDup(rules.lower, ks[i + 1..], ks[i]));
      out := ConsolidateRow(store, rules, link, ks, i, out, d, m, relations);
      m := RowMap(m, ks[i], LastDup(rules.lower, ks[i + 1..], ks[i]));
    }
    assert m + Table(rules.lower, ks[|ks|..]) == m;
  }

  lemma LaterRowsFree(ks: Dict, i: nat, m: Links, heir: Option<string>)
    requires i < |ks| && Distinct(ks[i..]) && forall x <- ks[i..] :: x.id !in m
    ensures forall x <- ks[i + 1..] :: x.id !in m && x.id !in RowMap(m, ks[i], heir)
  {
    var t := ks[i..];
    assert t[1..] == ks[i + 1..] && t[0] == ks[i];
    forall x | x in t[1..] ensures x in t && x.id != t[0].id { assert !HasId(t[1..], t[0].id); }
  }

  // ------------------------------------------------------- the whole pass ---

  function LinksOfKinds(lower: string -> string, d: Dict, kinds: seq<Kind>): Links {
    if kinds == [] then map[]
    else LinksOfKinds(lower, d, kinds[..|kinds| - 1]) + KindLinks(lower, d, kinds[|kinds| - 1])
  }

  lemma {:induction false} LinksOfKindsMeaning(lower: string -> string, d: Dict, kinds: seq<Kind>, x: Entry)
    requires Distinct(d) && x in d && x.Record?
    ensures var m := LinksOfKinds(lower, d, kinds);
      && (x.id in m <==> x.kind in kinds && Link(lower, d, x).Some?)
      && (x.id in m ==> m[x.id] == Link(lower, d, x).value)
  {
    if kinds != [] {
      var n := |kinds| - 1;
      LinksOfKindsMeaning(lower, d, kinds[..n], x);
      KindLinksMeaning(lower, d, kinds[n], x);
      assert forall k :: k in kinds <==> k in kinds[..n] || k == kinds[n];
    }
  }

  lemma {:induction false} MarkedSame(d: Dict, m: Links, m': Links)
    requires forall x <- d :: (x.id in m <==> x.id in m') && (x.id in m ==> m[x.id] == m'[x.id])
    ensures Marked(d, m) == Marked(d, m')
  {
    if d != [] {
      assert d[0] in d;
      forall x | x in d[1..] ensures x in d {}
      MarkedSame(d[1..], m, m');
    }
  }

  ghost predicate GroupedRecords(d: Dict, kinds: seq<Kind>, byKind: map<Kind, Dict>) {
    && kinds == KindsIn(d) && (forall k :: k in kinds <==> k in byKind)
    && (forall k :: k in byKind ==> byKind[k] == OfKind(d, k))
    && (forall x <- d :: x.Record? ==> x.kind in byKind)
    && (forall i, j :: 0 <= i < j < |kinds| ==> kinds[i] != kinds[j])
  }

  lemma {:induction false} OfKindAppend(d: Dict, x: Entry, k: Kind)
    ensures OfKind(d + [x], k) == if IsKind(x, k) then OfKind(d, k) + [x] else OfKind(d, k)
  {
    if d != [] {
      assert (d + [x])[1..] == d[1..] + [x];
      OfKindAppend(d[1..], x, k);
    }
  }

  lemma {:induction false} NoneOfKind(d: Dict, k: Kind)
    requires forall x <- d :: !IsKind(x, k)
    ensures OfKind(d, k) == []
  {
    if d != [] {
      assert d[0] in d;
      NoneOfKind(d[1..], k);
    }
  }

  method GroupRecords(d: Dict) returns (kinds: seq<Kind>, byKind: map<Kind, Dict>)
    requires forall x <- d :: x.Record?
    ensures GroupedRecords(d, kinds, byKind)
  {
    kinds, byKind := [], map[];
    for i := 0 to |d|
      invariant GroupedRecords(d[..i], kinds, byKind)
    {
      var x := d[i];
      assert d[..i + 1] == d[..i] + [x];
      forall k { OfKindAppend(d[..i], x, k); }
      if x.kind !in byKind {
        NoneOfKind(d[..i], x.kind);
        kinds, byKind := kinds + [x.kind], byKind[x.kind := []];
      }
      byKind := byKind[x.kind := byKind[x.kind] + [x]];
    }
    assert d[..|d|] == d;
  }

  /** The records of the kind that comes next in the loop are there, and unmarked. */
  lemma NextKind(lower: string -> string, d: Dict, kinds: seq<Kind>, byKind: map<Kind, Dict>, n: nat)
    requires Distinct(d) && (forall x <- d :: x.Record?) && GroupedRecords(d, kinds, byKind) && n < |kinds|
    ensures kinds[n] in byKind && byKind[kinds[n]] == OfKind(d, kinds[n])
    ensures var m, ks := LinksOfKinds(lower, d, kinds[..n]), Sorted(OfKind(d, kinds[n]));
      Distinct(ks) && forall x <- ks :: x in d && x.id !in m
  {
    var k := kinds[n];
    assert k in kinds && k !in kinds[..n];
    OfKindMeaning(d, k);
    SortedMeaning(OfKind(d, k));
    forall x | x in Sorted(OfKind(d, k)) ensures x in d && x.id !in LinksOfKinds(lower, d, kinds[..n]) {
      LinksOfKindsMeaning(lower, d, kinds[..n], x);
    }
  }

  /** What the next kind adds to the links and to the report. */
  lemma OneMoreKind(rules: Rules, d: Dict, kinds: seq<Kind>, n: nat)
    requires n < |kinds|
    ensures var k, m, rep := kinds[n], LinksOfKinds(rules.lower, d, kinds[..n]), CompareKinds(rules, d, kinds[..n]);
      var ks := Sorted(OfKind(d, k));
      if k == Working || |OfKind(d, k)| < 2
      then LinksOfKinds(rules.lower, d, kinds[..n + 1]) == m && CompareKinds(rules, d, kinds[..n + 1]) == rep
      else LinksOfKinds(rules.lower, d, kinds[..n + 1]) == m + Table(rules.lower, ks)
           && CompareKinds(rules, d, kinds[..n + 1]) == CompareRows(rules, rep, ks, |ks|)
  {
    var k := kinds[n];
    assert kinds[..n + 1][..n] == kinds[..n] && kinds[..n + 1][n] == k;
    var m := LinksOfKinds(rules.lower, d, kinds[..n]);
    assert m + map[] == m;
    if k != Working && |OfKind(d, k)| < 2 {
      LoneRecordHasNoLinks(rules.lower, d, k);
      LoneRecordHasNoReport(rules, d, k, CompareKinds(rules, d, kinds[..n]));
    }
  }

  lemma LoneRecordHasNoReport(rules: Rules, d: Dict, k: Kind, rep: Report)
    requires |OfKind(d, k)| < 2
    ensures var ks := Sorted(OfKind(d, k)); CompareRows(rules, rep, ks, |ks|) == rep
  {
    var ks := Sorted(OfKind(d, k));
    SortedLength(OfKind(d, k));
    if ks != [] { assert ks[1..] == [] && CompareRows(rules, rep, ks, 0) == rep; }
  }

  lemma LoneRecordHasNoLinks(lower: string -> string, d: Dict, k: Kind)
    requires |OfKind(d, k)| < 2
    ensures KindLinks(lower, d, k) == map[]
  {
    var ks := Sorted(OfKind(d, k));
    SortedLength(OfKind(d, k));
    if ks != [] { assert ks[1..] == [] && LastDup(lower, [], ks[0]) == None; }
  }

  lemma AllKindsLinked(lower: string -> string, d: Dict, kinds: seq<Kind>, byKind: map<Kind, Dict>)
    requires Distinct(d) && (forall x <- d :: x.Record?) && GroupedRecords(d, kinds, byKind)
    ensures Marked(d, LinksOfKinds(lower, d, kinds)) == Consolidated(lower, d)
  {
    forall x | x in d
      ensures x.id in LinksOfKinds(lower, d, kinds) <==> x.id in AllLinks(lower, d)
      ensures x.id in AllLinks(lower, d) ==> LinksOfKinds(lower, d, kinds)[x.id] == AllLinks(lower, d)[x.id]
    {
      LinksOfKindsMeaning(lower, d, kinds, x);
      AllLinksMeaning(lower, d, x);
    }
    MarkedSame(d, LinksOfKinds(lower, d, kinds), AllLinks(lower, d));
  }

  /** THE LIVE PASS computes the closed form, although it walks a snapshot taken
      before its first write and writes that snapshot's records back; it reports what
      its comparisons found and stores one relation per superseded pair. */
  method Consolidate(store: JsonlMemoryStore, rules: Rules, link: (string, string) -> Entry) returns (out: Report)
    requires store.Valid() && Clean(store.records, store.max, store.scrub)
    modifies store
    ensures store.Valid() && Clean(store.records, store.max, store.scrub)
    ensures store.records == Consolidated(rules.lower, old(store.records)) && out == Reported(rules, old(store.records))
    ensures store.relations == Related(old(store.relations), out.superseded, link, store.scrub, store.max)
    ensures store.objects == old(store.objects) && store.trajectories == old(store.trajectories)
  {
    var records := store.records;
    ghost var relations := store.relations;
    var kinds, byKind := GroupRecords(records);
    NoLinksNoMarks(records);
    out := NO_REPORT;
    for n := 0 to |kinds|
      invariant Passing(store, records, LinksOfKinds(rules.lower, records, kinds[..n]), relations, out, link)
      invariant out == CompareKinds(rules, records, kinds[..n])
      invariant store.objects == old(store.objects) && store.trajectories == old(store.trajectories)
    {
      var k := kinds[n];
      ghost var m := LinksOfKinds(rules.lower, records, kinds[..n]);
      NextKind(rules.lower, records, kinds, byKind, n);
      OneMoreKind(rules, records, kinds, n);
      if k != Working && |byKind[k]| >= 2 {
        out := ConsolidateKind(store, rules, link, Sorted(byKind[k]), out, records, m, relations);
      }
    }
    assert kinds[..|kinds|] == kinds;
    AllKindsLinked(rules.lower, records, kinds, byKind);
    CleanAfter(rules.lower, records, store.max, store.scrub);
  }

  /** A pass leaves what the next one may start from. */
  lemma CleanAfter(lower: string -> string, d: Dict, max: nat, scrub: string -> string)
    requires Clean(d, max, scrub)
    ensures Clean(Consolidated(lower, d), max, scrub)
  {
    var m := AllLinks(lower, d);
    MarkedDistinct(d, m);
    forall k ensures Count(Marked(d, m), k) <= max { assert Count(d, k) <= max; }
    MarkedMeaning(d, m);
  }
}
