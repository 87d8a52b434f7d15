/** Small vocabulary shared by the modules of the model. */
module Common {

  datatype Option<+T> = None | Some(value: T)

  /** What Python's `pattern in text` answers for strings. */
  predicate Occurs(pattern: string, text: string) {
    exists i :: 0 <= i <= |text| && pattern <= text[i..]
  }

  /** The characters `str.strip()` removes. */
  predicate IsSpace(c: char) {
    var n := c as int;
    9 <= n <= 13 || 28 <= n <= 32 || n in {0x85, 0xA0, 0x1680, 0x2028, 0x2029, 0x202F, 0x205F, 0x3000} || 0x2000 <= n <= 0x200A
  }

  function StripLeft(s: string): (r: string)
    ensures |r| <= |s|
  {
    if s != "" && IsSpace(s[0]) then StripLeft(s[1..]) else s
  }

  /** `str.strip()`. */
  function Strip(s: string): (r: string)
    ensures |r| <= |s|
    decreases |s|
  {
    var t := StripLeft(s);
    if t != "" && IsSpace(t[|t| - 1]) then Strip(t[..|t| - 1]) else t
  }

  predicate Blank(s: string) { Strip(s) == "" }

  /** The twenty-nine blanks of Python's `str`. */
  lemma SpacesExactly(c: char)
    ensures IsSpace(c) <==> c as int in {9, 10, 11, 12, 13, 28, 29, 30, 31, 32, 0x85, 0xA0, 0x1680, 0x2000, 0x2001, 0x2002, 0x2003, 0x2004,
                                        0x2005, 0x2006, 0x2007, 0x2008, 0x2009, 0x200A, 0x2028, 0x2029, 0x202F, 0x205F, 0x3000}
  {
  }

  predicate AllSpace(s: string) { forall c <- s :: IsSpace(c) }

  lemma {:induction false} StripLeftMeaning(s: string) returns (before: string)
    ensures s == before + StripLeft(s) && AllSpace(before)
    ensures StripLeft(s) != "" ==> !IsSpace(StripLeft(s)[0])
  {
    before := "";
    if s != "" && IsSpace(s[0]) {
      var more := StripLeftMeaning(s[1..]);
      before := [s[0]] + more;
    }
  }

  /** `s` is `r` with blanks around it. */
  predicate Padded(s: string, before: string, r: string, after: string) {
    s == before + r + after && AllSpace(before) && AllSpace(after)
  }

  lemma PaddedOnceMore(u: string, a: string, r: string, b: string, before: string, last: char)
    requires Padded(u, a, r, b) && AllSpace(before) && IsSpace(last)
    ensures Padded(before + (u + [last]), before + a, r, b + [last])
  {
  }

  /** Stripping takes the blanks off both ends ... */
  lemma {:induction false} StripMeaning(s: string) returns (before: string, after: string)
    ensures Padded(s, before, Strip(s), after)
    decreases |s|
  {
    before := StripLeftMeaning(s);
    after := "";
    var t := StripLeft(s);
    if t != "" && IsSpace(t[|t| - 1]) {
      var u, last := t[..|t| - 1], t[|t| - 1];
      var a, b := StripMeaning(u);
      PaddedOnceMore(u, a, Strip(u), b, before, last);
      assert s == before + (u + [last]) by { assert t == u + [last]; }
      assert Strip(s) == Strip(u);
      before, after := before + a, b + [last];
    }
  }

  /** ... and leaves none there. */
  lemma {:induction false} StrippedEnds(s: string)
    ensures Strip(s) != "" ==> !IsSpace(Strip(s)[0]) && !IsSpace(Strip(s)[|Strip(s)| - 1])
    decreases |s|
  {
    var t := StripLeft(s);
    var before := StripLeftMeaning(s);
    if t != "" && IsSpace(t[|t| - 1]) { StrippedEnds(t[..|t| - 1]); }
  }

  /** One text occurs in another when it stands somewhere inside. */
  lemma OccursMeaning(pattern: string, text: string)
    ensures Occurs(pattern, text) <==> exists before, after :: text == before + pattern + after
  {
    if Occurs(pattern, text) {
      var i :| 0 <= i <= |text| && pattern <= text[i..];
      assert text == text[..i] + pattern + text[i + |pattern|..];
    }
    if before, after :| text == before + pattern + after {
      assert pattern <= text[|before|..];
    }
  }
}
