/** The string operations the parsers use. */
module Text {

  /** Unicode `White_Space`, as `char::is_whitespace`. */
  predicate IsWhitespace(c: char) {
    var n := c as int;
    || 0x9 <= n <= 0xD || n == 0x20 || n == 0x85 || n == 0xA0 || n == 0x1680
    || 0x2000 <= n <= 0x200A || n == 0x2028 || n == 0x2029 || n == 0x202F || n == 0x205F || n == 0x3000
  }

  function TrimStart(s: string): string {
    if s != [] && IsWhitespace(s[0]) then TrimStart(s[1..]) else s
  }

  function TrimEnd(s: string): string {
    if s != [] && IsWhitespace(s[|s| - 1]) then TrimEnd(s[..|s| - 1]) else s
  }

  function Trim(s: string): string { TrimEnd(TrimStart(s)) }

  predicate StartsWith(s: string, prefix: string) { prefix <= s }

  function LowerChar(c: char): char {
    if 'A' <= c <= 'Z' then ((c as int) + 32) as char else c
  }

  /** `to_ascii_lowercase` */
  function LowerAscii(s: string): string {
    seq(|s|, i requires 0 <= i < |s| => LowerChar(s[i]))
  }

  /** The same character, or the two cases of one ASCII letter. */
  predicate SameLetter(c: char, d: char) {
    || c == d
    || ('A' <= c <= 'Z' && d as int == c as int + 32)
    || ('A' <= d <= 'Z' && c as int == d as int + 32)
  }

  /** Lower-casing two texts makes them equal exactly when they differ in the case of ASCII letters alone. */
  lemma LowerSameExactly(s: string, t: string)
    ensures LowerAscii(s) == LowerAscii(t) <==> |s| == |t| && forall i :: 0 <= i < |s| ==> SameLetter(s[i], t[i])
  {
    if LowerAscii(s) == LowerAscii(t) {
      forall i | 0 <= i < |s| ensures SameLetter(s[i], t[i]) {
        assert LowerAscii(s)[i] == LowerAscii(t)[i];
      }
    }
  }

  predicate NoWhitespace(s: string) { forall i :: 0 <= i < |s| ==> !IsWhitespace(s[i]) }

  lemma TrimNothing(s: string)
    requires s == [] || (!IsWhitespace(s[0]) && !IsWhitespace(s[|s| - 1]))
    ensures Trim(s) == s
  {
  }

  predicate AllWhitespace(s: string) { forall i :: 0 <= i < |s| ==> IsWhitespace(s[i]) }

  /** Neither end is white space. */
  predicate Tight(s: string) {
    s == [] || (!IsWhitespace(s[0]) && !IsWhitespace(s[|s| - 1]))
  }

  /** Trimming takes the white space of both ends and nothing else. */
  lemma {:induction false} TrimPadded(before: string, s: string, after: string)
    requires AllWhitespace(before) && AllWhitespace(after) && Tight(s)
    ensures Trim(before + s + after) == s
  {
    if before != [] {
      assert (before + s + after)[1..] == before[1..] + s + after;
      TrimPadded(before[1..], s, after);
    } else if s == [] {
      assert before + s + after == after;
      TrimBlank(after);
    } else {
      assert before + s + after == s + after;
      TrimAfter(s, after);
    }
  }

  lemma {:induction false} TrimBlank(s: string)
    requires AllWhitespace(s)
    ensures TrimStart(s) == [] && Trim(s) == []
  {
    if s != [] { TrimBlank(s[1..]); }
  }

  lemma {:induction false} TrimAfter(s: string, after: string)
    requires s != [] && Tight(s) && AllWhitespace(after)
    ensures TrimEnd(s + after) == s
  {
    var n := |after|;
    if n > 0 {
      assert (s + after)[..|s + after| - 1] == s + after[..n - 1];
      TrimAfter(s, after[..n - 1]);
    } else {
      assert s + after == s;
    }
  }

  /** Every text is its trimmed form between white space. */
  lemma {:induction false} TrimSplits(s: string) returns (before: string, after: string)
    ensures s == before + Trim(s) + after && AllWhitespace(before) && AllWhitespace(after) && Tight(Trim(s))
  {
    var rest;
    before, rest := StartSplits(s);
    after := EndSplits(rest);
    assert rest == Trim(s) + after;
    assert s == before + (Trim(s) + after);
    if Trim(s) != [] { assert Trim(s)[0] == rest[0]; }
  }

  lemma {:induction false} StartSplits(s: string) returns (before: string, rest: string)
    ensures s == before + rest && rest == TrimStart(s) && AllWhitespace(before)
    ensures rest == [] || !IsWhitespace(rest[0])
  {
    if s != [] && IsWhitespace(s[0]) {
      before, rest := StartSplits(s[1..]);
      before := [s[0]] + before;
    } else {
      before, rest := [], s;
    }
  }

  lemma {:induction false} EndSplits(s: string) returns (after: string)
    ensures s == TrimEnd(s) + after && AllWhitespace(after)
    ensures TrimEnd(s) == [] || !IsWhitespace(TrimEnd(s)[|TrimEnd(s)| - 1])
  {
    if s != [] && IsWhitespace(s[|s| - 1]) {
      var front, last := s[..|s| - 1], [s[|s| - 1]];
      var mid := EndSplits(front);
      assert s == TrimEnd(front) + (mid + last);
      after := mid + last;
    } else {
      after := [];
    }
  }

  /** The 25 white space characters. */
  lemma WhitespaceExactly(c: char)
    ensures IsWhitespace(c) <==>
      c in "\t\n\U{B}\U{C}\r \U{85}\U{A0}\U{1680}\U{2000}\U{2001}\U{2002}\U{2003}\U{2004}\U{2005}" +
           "\U{2006}\U{2007}\U{2008}\U{2009}\U{200A}\U{2028}\U{2029}\U{202F}\U{205F}\U{3000}"
  {
  }
}
