/** A codec with everything the memory file's theorems ask of the JSON encoding, so
    that what they assume can be met: brace-delimited, escaped, one field after
    another. */
module LineCodec {
  import opened Common
  import opened MemoryStore

  predicate Escaped(c: char) { c == '{' || c == '}' || c == '\\' || c == ';' || (IsBreak(c) && !Unescaped(c)) }

  function EscapeChar(c: char): string {
    if Escaped(c) then ['\\', (0x1000 + c as int) as char] else [c]
  }

  /** A field, its end, and what follows it. */
  function Field(s: string, rest: string): string {
    if s == "" then [';'] + rest else EscapeChar(s[0]) + Field(s[1..], rest)
  }

  function Body(fields: seq<string>): string {
    if fields == [] then "" else Field(fields[0], Body(fields[1..]))
  }

  function Ones(n: nat): (r: string)
    ensures |r| == n && forall c <- r :: c == '1'
  {
    if n == 0 then "" else "1" + Ones(n - 1)
  }

  function Number(n: int): string { if n < 0 then "-" + Ones(-n) else Ones(n) }

  function TagCode(tag: Tag): string {
    match tag case RecordTag => "r" case ObjectTag => "o" case RelationTag => "l" case TrajectoryTag => "t"
  }

  function KindCode(kind: Kind): string {
    match kind case Working => "w" case Episodic => "e" case Semantic => "s" case Procedural => "p"
  }

  function Fields(l: Line): seq<string> {
    var x := l.item;
    if x.Other? then [TagCode(l.tag), "", x.id, x.data]
    else [TagCode(l.tag), KindCode(x.kind), x.id, x.content, Number(x.createdAt), if x.superseded then "y" else "n",
          if x.supersededBy.Some? then "+" + x.supersededBy.value else "", x.rest] + x.tags
  }

  function Encode(l: Line): string { "{" + Body(Fields(l)) + "}" }

  ghost function Decode(text: string): (r: Option<Line>)
    ensures r.Some? ==> Fits(r.value) && Encode(r.value) == text
    ensures r.None? ==> forall l | Fits(l) :: Encode(l) != text
  {
    if l :| Fits(l) && Encode(l) == text then Some(l) else None
  }

  // ------------------------------------------------ nothing is confused ---

  lemma Cut(p: string, u: string, q: string, v: string)
    requires p + u == q + v && |p| == |q|
    ensures p == q && u == v
  {
    assert p == (p + u)[..|p|] && q == (q + v)[..|q|];
    assert u == (p + u)[|p|..] && v == (q + v)[|q|..];
  }

  lemma EscapedCharCancels(a: char, u: string, b: char, v: string)
    requires EscapeChar(a) + u == EscapeChar(b) + v
    ensures a == b && u == v
  {
    var p, q := EscapeChar(a), EscapeChar(b);
    assert p[0] == (p + u)[0] && q[0] == (q + v)[0];
    Cut(p, u, q, v);
  }

  lemma FieldStart(s: string, rest: string)
    ensures var f := Field(s, rest); f != "" && (f[0] == ';' <==> s == "")
  {
    if s != "" { assert EscapeChar(s[0])[0] == Field(s, rest)[0]; }
  }

  lemma {:induction false} FieldCancels(a: string, b: string, x: string, y: string)
    requires Field(a, x) == Field(b, y)
    ensures a == b && x == y
  {
    FieldStart(a, x);
    FieldStart(b, y);
    if a == "" {
      Cut([';'], x, [';'], y);
    } else {
      EscapedCharCancels(a[0], Field(a[1..], x), b[0], Field(b[1..], y));
      FieldCancels(a[1..], b[1..], x, y);
      assert a == [a[0]] + a[1..] && b == [b[0]] + b[1..];
    }
  }

  lemma {:induction false} BodyIsInjective(fs: seq<string>, gs: seq<string>)
    requires Body(fs) == Body(gs)
    ensures fs == gs
  {
    if fs != [] { FieldStart(fs[0], Body(fs[1..])); }
    if gs != [] { FieldStart(gs[0], Body(gs[1..])); }
    if fs != [] {
      FieldCancels(fs[0], gs[0], Body(fs[1..]), Body(gs[1..]));
      BodyIsInjective(fs[1..], gs[1..]);
      assert fs == [fs[0]] + fs[1..] && gs == [gs[0]] + gs[1..];
    }
  }

  lemma NumberShape(n: int)
    ensures n < 0 <==> '-' in Number(n)
    ensures |Number(n)| == if n < 0 then 1 - n else n
  {
  }

  lemma NumberIsInjective(m: int, n: int)
    requires Number(m) == Number(n)
    ensures m == n
  {
    NumberShape(m);
    NumberShape(n);
  }

  lemma FieldsAreInjective(l: Line, m: Line)
    requires Fields(l) == Fields(m)
    ensures l == m
  {
    var f, g := Fields(l), Fields(m);
    assert TagCode(l.tag) == f[0] && TagCode(m.tag) == g[0];
    if l.item.Record? && m.item.Record? {
      assert f[4] == Number(l.item.createdAt) && g[4] == Number(m.item.createdAt);
      NumberIsInjective(l.item.createdAt, m.item.createdAt);
      assert l.item.tags == f[8..] && m.item.tags == g[8..];
      assert f[1] == KindCode(l.item.kind) && g[1] == KindCode(m.item.kind) && f[5] == g[5];
      HeirsAreInjective(f[6], l.item.supersededBy, m.item.supersededBy);
    } else {
      assert f[1] == g[1] && f[3] == g[3] && f[2] == g[2];
    }
  }

  lemma HeirsAreInjective(f: string, a: Option<string>, b: Option<string>)
    requires f == if a.Some? then "+" + a.value else ""
    requires f == if b.Some? then "+" + b.value else ""
    ensures a == b
  {
    if f != "" { assert a.value == f[1..] == b.value; }
  }

  lemma EncodeIsInjective(l: Line, m: Line)
    requires Encode(l) == Encode(m)
    ensures l == m
  {
    var s, t := Encode(l), Encode(m);
    assert Body(Fields(l)) == s[1..|s| - 1] && Body(Fields(m)) == t[1..|t| - 1];
    BodyIsInjective(Fields(l), Fields(m));
    FieldsAreInjective(l, m);
  }

  // ------------------------------------------------------ what breaks it ---

  lemma {:induction false} FieldChars(s: string, rest: string, c: char)
    requires c == '{' || c == '}' || IsBreak(c)
    ensures c in Field(s, rest) <==> (Unescaped(c) && c in s) || c in rest
  {
    if s != "" {
      FieldChars(s[1..], rest, c);
      assert c in s <==> c == s[0] || c in s[1..];
      assert c in Field(s, rest) <==> c in EscapeChar(s[0]) || c in Field(s[1..], rest);
    }
  }

  lemma {:induction false} BodyChars(fields: seq<string>, c: char)
    requires c == '{' || c == '}' || IsBreak(c)
    ensures c in Body(fields) <==> Unescaped(c) && c in Joined(fields)
  {
    if fields != [] {
      BodyChars(fields[1..], c);
      FieldChars(fields[0], Body(fields[1..]), c);
    }
  }

  lemma LineChars(l: Line, c: char)
    requires Unescaped(c)
    ensures c in Joined(Fields(l)) <==> c in TextOf(l.item)
  {
    if l.item.Other? { OtherChars(l, c); } else { RecordChars(l, c); }
  }

  lemma OtherChars(l: Line, c: char)
    requires Unescaped(c) && l.item.Other?
    ensures c in Joined(Fields(l)) <==> c in TextOf(l.item)
  {
    var f := Fields(l);
    JoinedAt(f, 4, c);
    assert f[4..] == [] && c !in f[0] && c !in f[1] && f[2] == l.item.id && f[3] == l.item.data;
  }

  lemma RecordChars(l: Line, c: char)
    requires Unescaped(c) && l.item.Record?
    ensures c in Joined(Fields(l)) <==> c in TextOf(l.item)
  {
    var f, x := Fields(l), l.item;
    JoinedAt(f, 8, c);
    assert f[8..] == x.tags && c !in f[0] && c !in f[1] && c !in f[4] && c !in f[5];
    assert f[2] == x.id && f[3] == x.content && f[7] == x.rest;
    var heir := if x.supersededBy.Some? then x.supersededBy.value else "";
    assert c in f[6] <==> c in heir;
    assert c in TextOf(x) <==> c in f[2] || c in f[3] || c in Joined(x.tags) || c in heir || c in f[7];
  }

  lemma {:induction false} JoinedAt(fields: seq<string>, n: nat, c: char)
    requires n <= |fields|
    ensures c in Joined(fields) <==> c in Joined(fields[n..]) || exists i :: 0 <= i < n && c in fields[i]
  {
    if n == 0 {
      assert fields[0..] == fields;
    } else {
      JoinedAt(fields[1..], n - 1, c);
      assert fields[1..][n - 1..] == fields[n..];
      if i :| 0 <= i < n - 1 && c in fields[1..][i] { assert c in fields[i + 1]; }
      if i :| 0 < i < n && c in fields[i] { assert c in fields[1..][i - 1]; }
    }
  }

  predicate SliceAt(s: string, piece: string, i: nat) { i + |piece| <= |s| && piece == s[i..i + |piece|] }

  lemma {:induction false} PieceIsASlice(s: string, piece: string) returns (i: nat)
    requires piece in Lines(s)
    ensures SliceAt(s, piece, i) && OneLine(piece)
    decreases |s|
  {
    var n := FirstLine(s);
    FirstLineIsOne(s);
    if n == |s| || piece == s[..n] {
      i := 0;
      assert s[..n] == s[0..n] && s == s[0..|s|];
    } else {
      var j := PieceIsASlice(s[After(s)..], piece);
      i := After(s) + j;
      SliceOfSuffix(s, After(s), piece, j);
    }
  }

  lemma SliceOfSuffix(s: string, m: nat, piece: string, j: nat)
    requires m <= |s| && SliceAt(s[m..], piece, j)
    ensures SliceAt(s, piece, m + j)
  {
  }

  lemma {:induction false} FirstLineIsOne(s: string)
    ensures OneLine(s[..FirstLine(s)])
  {
    if s != "" && !IsBreak(s[0]) {
      FirstLineIsOne(s[1..]);
      assert s[..FirstLine(s)] == [s[0]] + s[1..][..FirstLine(s[1..])];
    }
  }

  lemma {:induction false} StrippedLeft(s: string)
    ensures forall c <- StripLeft(s) :: c in s
  {
    if s != "" { StrippedLeft(s[1..]); }
  }

  lemma {:induction false} StrippedChars(s: string)
    ensures forall c <- Strip(s) :: c in s
    decreases |s|
  {
    StrippedLeft(s);
    var t := StripLeft(s);
    if t != "" { StrippedChars(t[..|t| - 1]); }
  }

  /** A piece with both braces is the whole encoding. */
  lemma BothBraces(l: Line, piece: string)
    requires piece in Lines(Encode(l) + "\n") && '{' in piece && '}' in piece
    ensures OneLine(Encode(l))
  {
    var text := Encode(l);
    var i := PieceIsASlice(text + "\n", piece);
    OnlyTwoBraces(l);
    var p :| 0 <= p < |piece| && piece[p] == '{';
    var q :| 0 <= q < |piece| && piece[q] == '}';
    assert (text + "\n")[i + p] == '{' && (text + "\n")[i + q] == '}';
    forall k | 0 <= k < |text| ensures !IsBreak(text[k]) { assert text[k] == piece[k]; }
  }

  /** A piece of a broken encoding lacks one of the two braces. */
  lemma PiecesDoNotDecode(l: Line, piece: string)
    requires !OneLine(Encode(l)) && piece in Lines(Encode(l) + "\n")
    ensures Decode(Strip(piece)).None?
  {
    if Decode(Strip(piece)).Some? {
      var text := Encode(Decode(Strip(piece)).value);
      assert text[0] == '{' && text[|text| - 1] == '}';
      StrippedChars(piece);
      BothBraces(l, piece);
    }
  }

  lemma OnlyTwoBraces(l: Line)
    ensures var text := Encode(l) + "\n";
      forall k :: 0 <= k < |text| ==> (text[k] == '{' ==> k == 0) && (text[k] == '}' ==> k == |text| - 2)
  {
    var body := Body(Fields(l));
    BodyChars(Fields(l), '{');
    BodyChars(Fields(l), '}');
    forall k | 0 <= k < |body| ensures body[k] != '{' && body[k] != '}' { assert body[k] in body; }
  }

  lemma BracesStay(s: string)
    ensures Strip("{" + s + "}") == "{" + s + "}"
  {
  }

  /** THE ASSUMPTIONS CAN BE MET: one codec is faithful, escapes as JSON does, and
      reads records from record lines only. */
  lemma AssumptionsCanBeMet()
    ensures exists c: Codec :: Faithful(c) && EscapesControls(c) && WellTyped(c)
  {
    var c := Codec(Encode, (text: string) => Decode(text));
    forall l: Line | Fits(l)
      ensures Decode(Encode(l)) == Some(l) && Strip(Encode(l)) == Encode(l)
      ensures !OneLine(Encode(l)) ==> forall piece <- Lines(Encode(l) + "\n") :: Decode(Strip(piece)).None?
    {
      EncodeIsInjective(l, Decode(Encode(l)).value);
      BracesStay(Body(Fields(l)));
      if !OneLine(Encode(l)) {
        forall piece | piece in Lines(Encode(l) + "\n") ensures Decode(Strip(piece)).None? { PiecesDoNotDecode(l, piece); }
      }
    }
    forall l: Line, ch: char | IsBreak(ch) ensures ch in c.encode(l) <==> Unescaped(ch) && ch in TextOf(l.item) {
      BodyChars(Fields(l), ch);
      if Unescaped(ch) { LineChars(l, ch); }
    }
    assert Faithful(c) && EscapesControls(c) && WellTyped(c);
  }
}
