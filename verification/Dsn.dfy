/** The libpq connection string printer, and the reader of the keyword/value format
    of section 34.1.1.1 (Keyword/Value Connection Strings) of the PostgreSQL 16
    documentation. */
module Dsn {
  import opened Common

  // -------------------------------------------------------------- printer ---

  predicate IsSimple(c: char) {
    'A' <= c <= 'Z' || 'a' <= c <= 'z' || '0' <= c <= '9' || c == '.' || c == '_' || c == '-'
  }

  predicate AllSimple(s: string) { s == "" || (IsSimple(s[0]) && AllSimple(s[1..])) }

  /** `str.replace` of one character. */
  function ReplaceAll(s: string, c: char, with: string): string {
    if s == "" then "" else (if s[0] == c then with else [s[0]]) + ReplaceAll(s[1..], c, with)
  }

  /** Backslashes first, then quotes. */
  function Escaped(value: string): string {
    ReplaceAll(ReplaceAll(value, '\\', "\\\\"), '\'', "\\'")
  }

  function QuoteValue(value: string): string {
    if AllSimple(value) then value else "'" + Escaped(value) + "'"
  }

  datatype Setting = Setting(keyword: string, value: string)

  function Print(settings: seq<Setting>): string {
    if settings == [] then ""
    else settings[0].keyword + "=" + QuoteValue(settings[0].value) + if |settings| == 1 then "" else " " + Print(settings[1..])
  }

  function Digit(n: nat): char
    requires n < 10
  {
    (48 + n) as char
  }

  function Decimal(n: int): string
    decreases if n < 0 then 1 - n else n
  {
    if n < 0 then "-" + Decimal(-n)
    else if n < 10 then [Digit(n)]
    else Decimal(n / 10) + [Digit(n % 10)]
  }

  function DsnSettings(host: string, port: int, dbname: string, user: string, password: string): seq<Setting> {
    [Setting("host", host), Setting("port", Decimal(port)), Setting("dbname", dbname), Setting("user", user), Setting("password", password)]
  }

  /** `" ".join(parts)` */
  function Join(parts: seq<string>): string {
    if parts == [] then "" else if |parts| == 1 then parts[0] else parts[0] + " " + Join(parts[1..])
  }

  function Part(keyword: string, value: string): string { keyword + "=" + value }

  function BuildPostgresDsn(host: string, port: int, dbname: string, user: string, password: string): string {
    Join([Part("host", QuoteValue(host)), Part("port", Decimal(port)), Part("dbname", QuoteValue(dbname)),
          Part("user", QuoteValue(user)), Part("password", QuoteValue(password))])
  }

  // --------------------------------------------------------------- reader ---

  predicate IsBlank(c: char) { c == ' ' || '\t' <= c <= '\r' }

  function SkipBlanks(s: string): (r: string)
    ensures |r| <= |s|
  {
    if s != "" && IsBlank(s[0]) then SkipBlanks(s[1..]) else s
  }

  datatype Read = Bad | Read(text: string, rest: string)

  /** A keyword ends at the equal sign, with optional blanks before it. */
  function ReadKeyword(s: string): (r: Read)
    ensures r.Read? ==> |r.rest| < |s|
  {
    if s == "" then Bad
    else if s[0] == '=' then Read("", s[1..])
    else if IsBlank(s[0]) then
      var t := SkipBlanks(s);
      if t != "" && t[0] == '=' then Read("", t[1..]) else Bad
    else match ReadKeyword(s[1..])
      case Bad => Bad
      case Read(text, rest) => Read([s[0]] + text, rest)
  }

  /** An unquoted value ends at a blank; a backslash escapes the next character. */
  function ReadPlain(s: string): (r: Read)
    ensures r.Read? && |r.rest| <= |s|
  {
    if s == "" then Read("", "")
    else if IsBlank(s[0]) then Read("", s[1..])
    else if s[0] == '\\' then
      if |s| == 1 then Read("", "")
      else var r := ReadPlain(s[2..]); Read([s[1]] + r.text, r.rest)
    else var r := ReadPlain(s[1..]); Read([s[0]] + r.text, r.rest)
  }

  /** A quoted value ends at an unescaped quote. */
  function ReadQuoted(s: string): (r: Read)
    ensures r.Read? ==> |r.rest| <= |s|
  {
    if s == "" then Bad
    else if s[0] == '\'' then Read("", s[1..])
    else if s[0] == '\\' then
      if |s| == 1 then Bad
      else match ReadQuoted(s[2..]) case Bad => Bad case Read(text, rest) => Read([s[1]] + text, rest)
    else match ReadQuoted(s[1..]) case Bad => Bad case Read(text, rest) => Read([s[0]] + text, rest)
  }

  function ReadValue(s: string): (r: Read)
    ensures r.Read? ==> |r.rest| <= |s|
  {
    var t := SkipBlanks(s);
    if t != "" && t[0] == '\'' then ReadQuoted(t[1..]) else ReadPlain(t)
  }

  /** The settings of a connection string; `None` when it is malformed. */
  function Parse(s: string): Option<seq<Setting>>
    decreases |s|
  {
    var t := SkipBlanks(s);
    if t == "" then Some([])
    else
      var key := ReadKeyword(t);
      if key.Bad? then None
      else
        var value := ReadValue(key.rest);
        if value.Bad? then None
        else match Parse(value.rest)
          case None => None
          case Some(more) => Some([Setting(key.text, value.text)] + more)
  }

  lemma CharacterSets(c: char)
    ensures IsSimple(c) <==> 65 <= c as int <= 90 || 97 <= c as int <= 122 || 48 <= c as int <= 57 || c as int in {45, 46, 95}
    ensures IsBlank(c) <==> c as int in {9, 10, 11, 12, 13, 32}
  {
  }

  lemma {:induction false} AllSimpleExactly(s: string)
    ensures AllSimple(s) <==> forall i :: 0 <= i < |s| ==> IsSimple(s[i])
  {
    if s != "" {
      AllSimpleExactly(s[1..]);
      assert forall i :: 0 <= i < |s[1..]| ==> s[1..][i] == s[i + 1];
      if AllSimple(s) {
        forall i | 0 <= i < |s| ensures IsSimple(s[i]) { if i > 0 { assert s[i] == s[1..][i - 1]; } }
      }
    }
  }

  /** What the reader does at the edges: blanks may stand before the equal sign and
      nothing else may, and a lone backslash at the end stands for nothing. */
  lemma {:induction false} ReaderEdges(blanks: string, rest: string)
    requires blanks != "" && forall c <- blanks :: IsBlank(c)
    ensures ReadKeyword(blanks + "=" + rest) == Read("", rest)
    ensures rest != "" && !IsBlank(rest[0]) && rest[0] != '=' ==> ReadKeyword(blanks + rest).Bad?
    ensures ReadPlain("\\") == Read("", "") && ReadQuoted("\\").Bad? && ReadQuoted("").Bad?
  {
    assert blanks + "=" + rest == blanks + ("=" + rest);
    assert ("=" + rest)[0] == '=' && ("=" + rest)[1..] == rest;
    SkipAll(blanks, "=" + rest);
    assert (blanks + ("=" + rest))[0] == blanks[0] && blanks[0] in blanks;
    if rest != "" && !IsBlank(rest[0]) && rest[0] != '=' {
      SkipAll(blanks, rest);
      assert (blanks + rest)[0] == blanks[0] && blanks[0] in blanks;
    }
  }

  lemma {:induction false} SkipAll(blanks: string, rest: string)
    requires (forall c <- blanks :: IsBlank(c)) && (rest == "" || !IsBlank(rest[0]))
    ensures SkipBlanks(blanks + rest) == rest
  {
    if blanks == "" {
      assert blanks + rest == rest;
    } else {
      assert (blanks + rest)[1..] == blanks[1..] + rest && (blanks + rest)[0] == blanks[0] && blanks[0] in blanks;
      SkipAll(blanks[1..], rest);
    }
  }

  // ------------------------------------------------------------ round trip ---

  function EscapedChar(c: char): string {
    if c == '\\' then "\\\\" else if c == '\'' then "\\'" else [c]
  }

  lemma ReplaceConcat(a: string, b: string, c: char, with: string)
    ensures ReplaceAll(a + b, c, with) == ReplaceAll(a, c, with) + ReplaceAll(b, c, with)
  {
    if a == "" {
      assert a + b == b;
    } else {
      assert (a + b)[1..] == a[1..] + b;
      ReplaceConcat(a[1..], b, c, with);
    }
  }

  lemma EscapedStep(v: string)
    requires v != ""
    ensures Escaped(v) == EscapedChar(v[0]) + Escaped(v[1..])
  {
    var head := if v[0] == '\\' then "\\\\" else [v[0]];
    ReplaceConcat(head, ReplaceAll(v[1..], '\\', "\\\\"), '\'', "\\'");
    assert ReplaceAll(head, '\'', "\\'") == EscapedChar(v[0]) by {
      if v[0] == '\\' {
        assert head[1..] == "\\" && head[1..][1..] == "";
      } else {
        assert head[1..] == "";
      }
    }
  }

  lemma QuotedStep(c: char, tail: string, v: string, rest: string)
    requires ReadQuoted(tail) == Read(v, rest)
    ensures ReadQuoted(EscapedChar(c) + tail) == Read([c] + v, rest)
  {
    var s := EscapedChar(c) + tail;
    if c == '\\' || c == '\'' {
      assert s[0] == '\\' && s[1] == c && s[2..] == tail;
    } else {
      assert s[0] == c && s[1..] == tail;
    }
  }

  lemma Reassociate(a: string, b: string, c: string, d: string)
    ensures (a + b) + c + d == a + (b + c + d)
  {
  }

  /** Reading an escaped value back, up to its closing quote. */
  lemma {:induction false} QuotedReadsBack(v: string, rest: string)
    ensures ReadQuoted(Escaped(v) + "'" + rest) == Read(v, rest)
  {
    if v == "" {
      assert Escaped(v) + "'" + rest == "'" + rest;
    } else {
      EscapedStep(v);
      QuotedReadsBack(v[1..], rest);
      var tail := Escaped(v[1..]) + "'" + rest;
      Reassociate(EscapedChar(v[0]), Escaped(v[1..]), "'", rest);
      QuotedStep(v[0], tail, v[1..], rest);
      assert [v[0]] + v[1..] == v;
    }
  }

  /** What follows a value: nothing, or a blank. */
  predicate Delimited(rest: string) { rest == "" || rest[0] == ' ' }

  function AfterBlank(rest: string): string { if rest == "" then "" else rest[1..] }

  lemma SimpleIsPlain(c: char)
    requires IsSimple(c)
    ensures !IsBlank(c) && c != '\\' && c != '\'' && c != '='
  {
  }

  lemma {:induction false} PlainReadsBack(v: string, rest: string)
    requires AllSimple(v) && Delimited(rest)
    ensures ReadPlain(v + rest) == Read(v, AfterBlank(rest))
  {
    if v == "" {
      assert v + rest == rest;
    } else {
      SimpleIsPlain(v[0]);
      assert (v + rest)[1..] == v[1..] + rest;
      PlainReadsBack(v[1..], rest);
      assert [v[0]] + v[1..] == v;
    }
  }

  /** A printed value reads back, unless it is empty and something follows: then
      what follows is taken for the value. */
  lemma ValueReadsBack(v: string, rest: string)
    requires Delimited(rest) && (v != "" || rest == "")
    ensures var r := ReadValue(QuoteValue(v) + rest);
      r.Read? && r.text == v && (r.rest == rest || r.rest == AfterBlank(rest))
  {
    if AllSimple(v) {
      PlainReadsBack(v, rest);
      PlainStarts(v, rest);
    } else {
      QuotedStarts(v, rest);
      QuotedReadsBack(v, rest);
    }
  }

  lemma PlainStarts(v: string, rest: string)
    requires AllSimple(v) && (v != "" || rest == "")
    ensures ReadValue(v + rest) == ReadPlain(v + rest)
  {
    if v != "" {
      SimpleIsPlain(v[0]);
      assert (v + rest)[0] == v[0];
    }
  }

  lemma QuotedStarts(v: string, rest: string)
    ensures ReadValue("'" + Escaped(v) + "'" + rest) == ReadQuoted(Escaped(v) + "'" + rest)
  {
    var s := "'" + Escaped(v) + "'" + rest;
    assert s[0] == '\'' && s[1..] == Escaped(v) + "'" + rest;
  }

  predicate IsKeyword(k: string) { k != "" && AllSimple(k) }

  lemma {:induction false} KeywordReadsBack(k: string, rest: string)
    requires AllSimple(k)
    ensures ReadKeyword(k + "=" + rest) == Read(k, rest)
  {
    var s := k + "=" + rest;
    if k == "" {
      assert s[0] == '=' && s[1..] == rest;
    } else {
      SimpleIsPlain(k[0]);
      assert s[0] == k[0] && s[1..] == k[1..] + "=" + rest;
      KeywordReadsBack(k[1..], rest);
      assert [k[0]] + k[1..] == k;
    }
  }

  lemma ParseSkips(s: string)
    requires s != "" && s[0] == ' '
    ensures Parse(s) == Parse(s[1..])
  {
  }

  predicate Keywords(settings: seq<Setting>) { forall i :: 0 <= i < |settings| ==> IsKeyword(settings[i].keyword) }

  /** Only the last value may be empty. */
  predicate Readable(settings: seq<Setting>) {
    |settings| <= 1 || (settings[0].value != "" && Readable(settings[1..]))
  }

  /** One setting in front of what follows it. */
  lemma ParseFirst(first: Setting, rest: string)
    requires IsKeyword(first.keyword) && Delimited(rest) && (first.value != "" || rest == "")
    ensures Parse(first.keyword + "=" + QuoteValue(first.value) + rest) ==
      match Parse(AfterBlank(rest)) case None => None case Some(more) => Some([first] + more)
  {
    var s := first.keyword + "=" + QuoteValue(first.value) + rest;
    assert s == first.keyword + "=" + (QuoteValue(first.value) + rest);
    SimpleIsPlain(first.keyword[0]);
    assert s[0] == first.keyword[0] && SkipBlanks(s) == s;
    KeywordReadsBack(first.keyword, QuoteValue(first.value) + rest);
    ValueReadsBack(first.value, rest);
    if rest != "" { ParseSkips(rest); }
  }

  /** An empty value swallows the next setting. */
  lemma EmptySwallows(first: Setting, rest: string)
    requires IsKeyword(first.keyword) && first.value == "" && |rest| > 1 && rest[0] == ' ' && IsSimple(rest[1])
    ensures var p := Parse(first.keyword + "=" + QuoteValue(first.value) + rest); p.None? || (p.value != [] && p.value[0] != first)
  {
    var s := first.keyword + "=" + QuoteValue(first.value) + rest;
    assert s == first.keyword + "=" + rest;
    SimpleIsPlain(first.keyword[0]);
    assert s[0] == first.keyword[0] && SkipBlanks(s) == s;
    KeywordReadsBack(first.keyword, rest);
    SimpleIsPlain(rest[1]);
    assert SkipBlanks(rest) == SkipBlanks(rest[1..]) == rest[1..];
  }

  lemma PrintStarts(settings: seq<Setting>)
    requires Keywords(settings) && settings != []
    ensures Print(settings) != "" && IsSimple(Print(settings)[0])
  {
    assert Print(settings)[0] == settings[0].keyword[0];
  }

  /** THE ROUND TRIP, for any list of settings: reading the printed string gives
      back exactly the keywords and values if and only if no value but the last is
      empty. */
  lemma {:induction false} RoundTripExactly(settings: seq<Setting>)
    requires Keywords(settings)
    ensures Parse(Print(settings)) == Some(settings) <==> Readable(settings)
  {
    if settings == [] {
    } else if |settings| == 1 {
      ParseFirst(settings[0], "");
      assert Print(settings) == settings[0].keyword + "=" + QuoteValue(settings[0].value) + "";
      assert [settings[0]] + [] == settings;
    } else {
      var first, rest := settings[0], " " + Print(settings[1..]);
      assert Print(settings) == first.keyword + "=" + QuoteValue(first.value) + rest;
      assert rest[1..] == Print(settings[1..]);
      assert settings == [first] + settings[1..];
      if first.value != "" {
        RoundTripExactly(settings[1..]);
        ParseFirst(first, rest);
      } else {
        PrintStarts(settings[1..]);
        EmptySwallows(first, rest);
      }
    }
  }

  lemma {:induction false} DecimalIsSimple(n: int)
    ensures Decimal(n) != "" && AllSimple(Decimal(n))
    decreases if n < 0 then 1 - n else n
  {
    if n < 0 {
      DecimalIsSimple(-n);
      assert Decimal(n)[1..] == Decimal(-n);
    } else if n >= 10 {
      DecimalIsSimple(n / 10);
      SimpleAppend(Decimal(n / 10), Digit(n % 10));
    }
  }

  /** What a reader makes of decimal digits. */
  function Number(s: string): int {
    if s == "" then 0
    else if s[0] == '-' then -Number(s[1..])
    else Number(s[..|s| - 1]) * 10 + (s[|s| - 1] as int - 48)
  }

  lemma NumberAppend(s: string, c: char)
    requires s == "" || s[0] != '-'
    requires s != "" || c != '-'
    ensures Number(s + [c]) == Number(s) * 10 + (c as int - 48)
    ensures (s + [c])[0] != '-'
  {
    assert (s + [c])[..|s|] == s;
  }

  lemma {:induction false} NaturalReadsBack(n: nat)
    ensures Decimal(n) != "" && Decimal(n)[0] != '-' && Number(Decimal(n)) == n
  {
    if n >= 10 {
      NaturalReadsBack(n / 10);
      NumberAppend(Decimal(n / 10), Digit(n % 10));
    } else {
      NumberAppend("", Digit(n));
      assert "" + [Digit(n)] == [Digit(n)];
    }
  }

  lemma DecimalReadsBack(n: int)
    ensures Number(Decimal(n)) == n
  {
    if n < 0 {
      NaturalReadsBack(-n);
      assert Decimal(n)[1..] == Decimal(-n);
    } else {
      NaturalReadsBack(n);
    }
  }

  lemma {:induction false} SimpleAppend(s: string, c: char)
    requires AllSimple(s) && IsSimple(c)
    ensures AllSimple(s + [c])
  {
    if s != "" {
      assert (s + [c])[1..] == s[1..] + [c];
      SimpleAppend(s[1..], c);
    }
  }

  function Parts(settings: seq<Setting>): (r: seq<string>)
    ensures |r| == |settings|
    ensures forall i :: 0 <= i < |r| ==> r[i] == Part(settings[i].keyword, QuoteValue(settings[i].value))
  {
    if settings == [] then [] else [Part(settings[0].keyword, QuoteValue(settings[0].value))] + Parts(settings[1..])
  }

  lemma SpaceAssociates(a: string, b: string)
    ensures a + " " + b == a + (" " + b)
  {
  }

  lemma {:induction false} PrintJoins(settings: seq<Setting>)
    ensures Print(settings) == Join(Parts(settings))
  {
    if |settings| > 1 {
      PrintJoins(settings[1..]);
      assert Parts(settings)[1..] == Parts(settings[1..]);
      SpaceAssociates(Parts(settings)[0], Join(Parts(settings[1..])));
    }
  }

  lemma DsnIsPrinted(host: string, port: int, dbname: string, user: string, password: string)
    ensures BuildPostgresDsn(host, port, dbname, user, password) == Print(DsnSettings(host, port, dbname, user, password))
  {
    DecimalIsSimple(port);
    PrintJoins(DsnSettings(host, port, dbname, user, password));
    FiveParts(Setting("host", host), Setting("port", Decimal(port)), Setting("dbname", dbname), Setting("user", user), Setting("password", password));
  }

  lemma FiveParts(a: Setting, b: Setting, c: Setting, d: Setting, e: Setting)
    ensures Parts([a, b, c, d, e]) ==
      [Part(a.keyword, QuoteValue(a.value)), Part(b.keyword, QuoteValue(b.value)), Part(c.keyword, QuoteValue(c.value)),
       Part(d.keyword, QuoteValue(d.value)), Part(e.keyword, QuoteValue(e.value))]
  {
  }

  /** THE CONNECTION STRING gives back its five settings (the port as the decimal
      that reads as it) exactly when host, database and user are not empty; the
      password, being last, may be. */
  lemma DsnRoundTrip(host: string, port: int, dbname: string, user: string, password: string)
    ensures Parse(BuildPostgresDsn(host, port, dbname, user, password)) ==
        Some([Setting("host", host), Setting("port", Decimal(port)), Setting("dbname", dbname), Setting("user", user), Setting("password", password)])
       <==> host != "" && dbname != "" && user != ""
  {
    var s := DsnSettings(host, port, dbname, user, password);
    DsnIsPrinted(host, port, dbname, user, password);
    DecimalIsSimple(port);
    DsnKeywords(host, port, dbname, user, password);
    RoundTripExactly(s);
    assert s[1..][0] == s[1] && s[1..][1..] == s[2..] && s[2..][0] == s[2] && s[2..][1..] == s[3..] && s[3..][0] == s[3] && |s[3..][1..]| == 1;
    assert Readable(s[3..]) <==> user != "";
    assert Readable(s[2..]) <==> dbname != "" && user != "";
    assert Readable(s[1..]) <==> dbname != "" && user != "";
  }

  lemma DsnKeywords(host: string, port: int, dbname: string, user: string, password: string)
    ensures Keywords(DsnSettings(host, port, dbname, user, password))
  {
    ShortKeywords();
    LongKeywords();
    FiveKeywords(Setting("host", host), Setting("port", Decimal(port)), Setting("dbname", dbname), Setting("user", user), Setting("password", password));
  }

  lemma FiveKeywords(a: Setting, b: Setting, c: Setting, d: Setting, e: Setting)
    requires IsKeyword(a.keyword) && IsKeyword(b.keyword) && IsKeyword(c.keyword) && IsKeyword(d.keyword) && IsKeyword(e.keyword)
    ensures Keywords([a, b, c, d, e])
  {
  }

  lemma ShortKeywords()
    ensures IsKeyword("host") && IsKeyword("port") && IsKeyword("user")
  {
    AllSimpleExactly("host");
    AllSimpleExactly("port");
    AllSimpleExactly("user");
  }

  lemma LongKeywords()
    ensures IsKeyword("dbname") && IsKeyword("password")
  {
    AllSimpleExactly("dbname");
    AllSimpleExactly("password");
  }
}
