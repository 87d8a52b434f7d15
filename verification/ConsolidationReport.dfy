/** What a consolidation pass reports, and what a second pass still does. */
module ConsolidationReport {
  import opened Common
  import opened MemoryStore
  import opened Consolidation

  /** `x` comes before `y` in the time order of their common, non-working kind. */
  ghost predicate Before(d: Dict, x: Entry, y: Entry) {
    && x.Record? && x.kind != Working
    && var ks := Sorted(OfKind(d, x.kind));
       exists i, j :: 0 <= i < j < |ks| && ks[i] == x && ks[j] == y
  }

  /** The comparison of `x` with `y` reports the pair `p`, or the contradiction `c`. */
  predicate Gives(rules: Rules, x: Entry, y: Entry, p: Pair) { Supersedes(rules, x, y) && p == Pair(y.id, x.id) }

  predicate Flags(rules: Rules, x: Entry, y: Entry, c: Pair) { Contradicts(rules, x, y) && c == Pair(x.id, y.id) }

  lemma {:induction false} RowMeaning(rules: Rules, rep: Report, x: Entry, later: Dict, p: Pair)
    ensures var r := CompareRow(rules, rep, x, later);
      && (p in r.superseded <==> p in rep.superseded || exists y <- later :: Gives(rules, x, y, p))
      && (p in r.contradictions <==> p in rep.contradictions || exists y <- later :: Flags(rules, x, y, p))
  {
    if later != [] {
      var n := |later| - 1;
      RowMeaning(rules, rep, x, later[..n], p);
      assert forall y :: y in later <==> y in later[..n] || y == later[n];
      assert (exists y <- later :: Gives(rules, x, y, p)) <==> (exists y <- later[..n] :: Gives(rules, x, y, p)) || Gives(rules, x, later[n], p);
      assert (exists y <- later :: Flags(rules, x, y, p)) <==> (exists y <- later[..n] :: Flags(rules, x, y, p)) || Flags(rules, x, later[n], p);
    }
  }

  /** A comparison in one of the first `n` rows. */
  ghost predicate InRows(ks: Dict, n: nat, x: Entry, y: Entry) {
    exists i, j :: 0 <= i < j < |ks| && i < n && ks[i] == x && ks[j] == y
  }

  lemma InRowsStep(ks: Dict, n: nat, x: Entry, y: Entry)
    requires 0 < n <= |ks|
    ensures InRows(ks, n, x, y) <==> InRows(ks, n - 1, x, y) || (x == ks[n - 1] && y in ks[n..])
  {
    if x == ks[n - 1] && y in ks[n..] {
      var j :| 0 <= j < |ks[n..]| && ks[n..][j] == y;
      assert ks[n + j] == y;
    }
    if InRows(ks, n, x, y) && !InRows(ks, n - 1, x, y) {
      var i, j :| 0 <= i < j < |ks| && i < n && ks[i] == x && ks[j] == y;
      assert i == n - 1 && ks[n..][j - n] == y;
    }
  }

  lemma {:induction false} RowsMeaning(rules: Rules, rep: Report, ks: Dict, n: nat, p: Pair)
    requires n <= |ks|
    ensures var r := CompareRows(rules, rep, ks, n);
      && (p in r.superseded <==> p in rep.superseded || exists x, y :: InRows(ks, n, x, y) && Gives(rules, x, y, p))
      && (p in r.contradictions <==> p in rep.contradictions || exists x, y :: InRows(ks, n, x, y) && Flags(rules, x, y, p))
  {
    if n > 0 {
      RowsMeaning(rules, rep, ks, n - 1, p);
      RowMeaning(rules, CompareRows(rules, rep, ks, n - 1), ks[n - 1], ks[n..], p);
      forall x, y { InRowsStep(ks, n, x, y); }
    }
  }

  /** A comparison made for one of the kinds. */
  ghost predicate InKinds(d: Dict, kinds: seq<Kind>, x: Entry, y: Entry) {
    Before(d, x, y) && x.kind in kinds
  }

  lemma InKindsStep(d: Dict, kinds: seq<Kind>, x: Entry, y: Entry)
    requires kinds != []
    ensures var n := |kinds| - 1;
      var ks := Sorted(OfKind(d, kinds[n]));
      InKinds(d, kinds, x, y) <==> InKinds(d, kinds[..n], x, y) || (kinds[n] != Working && InRows(ks, |ks|, x, y))
  {
    var n := |kinds| - 1;
    var ks := Sorted(OfKind(d, kinds[n]));
    assert forall k :: k in kinds <==> k in kinds[..n] || k == kinds[n];
    if InRows(ks, |ks|, x, y) {
      assert x in ks;
      SortedMeaning(OfKind(d, kinds[n]));
      OfKindMeaning(d, kinds[n]);
    }
  }

  lemma {:induction false} KindsMeaning(rules: Rules, d: Dict, kinds: seq<Kind>, p: Pair)
    ensures var r := CompareKinds(rules, d, kinds);
      && (p in r.superseded <==> exists x, y :: InKinds(d, kinds, x, y) && Gives(rules, x, y, p))
      && (p in r.contradictions <==> exists x, y :: InKinds(d, kinds, x, y) && Flags(rules, x, y, p))
  {
    if kinds != [] {
      var n := |kinds| - 1;
      var ks := Sorted(OfKind(d, kinds[n]));
      KindsMeaning(rules, d, kinds[..n], p);
      RowsMeaning(rules, CompareKinds(rules, d, kinds[..n]), ks, |ks|, p);
      forall x, y { InKindsStep(d, kinds, x, y); }
    }
  }

  lemma {:induction false} KindsInMeaning(d: Dict)
    ensures forall x <- d :: x.Record? ==> x.kind in KindsIn(d)
  {
    if d != [] {
      KindsInMeaning(d[..|d| - 1]);
      assert forall x :: x in d <==> x in d[..|d| - 1] || x == d[|d| - 1];
    }
  }

  lemma BeforeMembers(d: Dict, x: Entry, y: Entry)
    requires Before(d, x, y)
    ensures x in d && y in d && y.Record? && y.kind == x.kind && (Distinct(d) ==> x.id != y.id)
  {
    var ks := Sorted(OfKind(d, x.kind));
    var i, j :| 0 <= i < j < |ks| && ks[i] == x && ks[j] == y;
    assert x in ks && y in ks;
    SortedMeaning(OfKind(d, x.kind));
    OfKindMeaning(d, x.kind);
    if Distinct(d) { DistinctAt(ks, i, j); }
  }

  /** THE REPORT IS EXACT: a pair is reported as superseded exactly when its records
      are live near-duplicates, the heir being the later one, of one non-working
      kind; and as a contradiction exactly when they are live, not superseding, and
      the heuristic says so. */
  lemma ReportMeaning(rules: Rules, d: Dict, p: Pair)
    ensures var r := Reported(rules, d);
      && (p in r.superseded <==> exists x, y :: Before(d, x, y) && Gives(rules, x, y, p))
      && (p in r.contradictions <==> exists x, y :: Before(d, x, y) && Flags(rules, x, y, p))
  {
    KindsMeaning(rules, d, KindsIn(d), p);
    KindsInMeaning(d);
    forall x, y | Before(d, x, y) ensures InKinds(d, KindsIn(d), x, y) { BeforeMembers(d, x, y); }
  }

  /** EVERY MARK IS REPORTED: a record the pass supersedes is listed with the heir
      its mark names, unless one of the two ids is blank. */
  lemma MarksAreReported(rules: Rules, d: Dict, x: Entry)
    requires Distinct(d) && x in d && x.Record? && Link(rules.lower, d, x).Some?
    requires !Blank(x.id) && !Blank(Link(rules.lower, d, x).value)
    ensures Pair(Link(rules.lower, d, x).value, x.id) in Reported(rules, d).superseded
  {
    var y := HeirBehind(rules.lower, d, x);
    assert Gives(rules, x, y, Pair(y.id, x.id));
    ReportMeaning(rules, d, Pair(y.id, x.id));
  }

  /** The heir a mark names comes later in the time order. */
  lemma HeirBehind(lower: string -> string, d: Dict, x: Entry) returns (y: Entry)
    requires Distinct(d) && x in d && x.Record? && Link(lower, d, x).Some?
    ensures Before(d, x, y) && Dup(lower, x, y) && y.id == Link(lower, d, x).value
  {
    var ks := Sorted(OfKind(d, x.kind));
    OfKindMeaning(d, x.kind);
    SortedMeaning(OfKind(d, x.kind));
    var t := SuffixOf(ks, x);
    SuccessorAtSuffix(lower, ks, t);
    var rest := HeirAt(lower, t[1..], x);
    y := rest[0];
    SuffixOfTail(rest, t, ks);
    SuffixHead(ks, t);
    SuffixHead(ks, rest);
  }

  /** ... and nothing after it duplicates the record: it is the last that does. */
  lemma HeirIsTheLast(lower: string -> string, d: Dict, x: Entry, z: Entry) returns (y: Entry)
    requires Distinct(d) && x in d && x.Record? && Link(lower, d, x).Some?
    ensures Before(d, x, y) && Dup(lower, x, y) && y.id == Link(lower, d, x).value
    ensures Before(d, y, z) ==> !Dup(lower, x, z)
  {
    var ks := Sorted(OfKind(d, x.kind));
    OfKindMeaning(d, x.kind);
    SortedMeaning(OfKind(d, x.kind));
    var t := SuffixOf(ks, x);
    SuccessorAtSuffix(lower, ks, t);
    var rest := HeirAt(lower, t[1..], x);
    y := rest[0];
    SuffixOfTail(rest, t, ks);
    SuffixHead(ks, t);
    SuffixHead(ks, rest);
    LastDupMeaning(lower, rest[1..], x);
    if Before(d, y, z) { LaterThanHead(ks, rest, z); }
  }

  /** What comes after the head of a suffix is in its tail. */
  lemma LaterThanHead(ks: Dict, rest: Dict, z: Entry)
    requires Distinct(ks) && rest != [] && Suffix(rest, ks)
    requires exists i, j :: 0 <= i < j < |ks| && ks[i] == rest[0] && ks[j] == z
    ensures z in rest[1..]
  {
    var i, j :| 0 <= i < j < |ks| && ks[i] == rest[0] && ks[j] == z;
    var n := |ks| - |rest|;
    if i < n { DistinctAt(ks, i, n); }
    if n < i { DistinctAt(ks, n, i); }
    assert rest[1..][j - n - 1] == z;
  }

  lemma SuffixHead(ks: Dict, t: Dict)
    requires Suffix(t, ks) && t != []
    ensures ks[|ks| - |t|] == t[0]
  {
  }

  /** A second pass supersedes nothing. */
  lemma SecondReportIsEmpty(rules: Rules, d: Dict)
    requires Distinct(d)
    ensures Reported(rules, Consolidated(rules.lower, d)).superseded == []
  {
    var c := Consolidated(rules.lower, d);
    var found := Reported(rules, c).superseded;
    MarkedDistinct(d, AllLinks(rules.lower, d));
    if found != [] {
      ReportMeaning(rules, c, found[0]);
      var x, y :| Before(c, x, y) && Gives(rules, x, y, found[0]);
      BeforeMembers(c, x, y);
      NoDuplicatesLeft(rules.lower, d, x, y);
    }
  }

  /** RUN TWICE on the live store: the second pass leaves every dictionary exactly
      as the first one did, and reports nothing superseded. */
  method ConsolidateTwice(store: JsonlMemoryStore, rules: Rules, link: (string, string) -> Entry) returns (first: Report, second: Report)
    requires store.Valid() && Clean(store.records, store.max, store.scrub)
    modifies store
    ensures first == Reported(rules, old(store.records)) && second.superseded == []
    ensures store.records == Consolidated(rules.lower, old(store.records))
    ensures store.relations == Related(old(store.relations), first.superseded, link, store.scrub, store.max)
    ensures store.objects == old(store.objects) && store.trajectories == old(store.trajectories)
  {
    ghost var records := store.records;
    first := Consolidate(store, rules, link);
    second := Consolidate(store, rules, link);
    SecondPassIsIdle(rules.lower, records);
    SecondReportIsEmpty(rules, records);
  }
}
