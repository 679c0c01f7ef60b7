/** White space and substrings, as Go's `strings`, `unicode` and `regexp` packages see them. */
module Strings {

  /** `unicode.IsSpace`. */
  predicate IsSpace(c: char) {
    var n := c as int;
    9 <= n <= 13 || n == 32 || n == 0x85 || n == 0xA0 || n == 0x1680 || 0x2000 <= n <= 0x200A
    || n == 0x2028 || n == 0x2029 || n == 0x202F || n == 0x205F || n == 0x3000
  }

  /** The class `\s` of a regular expression: no vertical tab, nothing beyond ASCII. */
  predicate IsRegexSpace(c: char) {
    c == '\t' || c == '\n' || c == '\r' || c == ' ' || c as int == 12
  }

  function TrimLeft(s: string): string {
    if s != "" && IsSpace(s[0]) then TrimLeft(s[1..]) else s
  }

  function TrimRight(s: string): string {
    if s != "" && IsSpace(s[|s| - 1]) then TrimRight(s[..|s| - 1]) else s
  }

  function TrimSpace(s: string): string { TrimLeft(TrimRight(s)) }

  /** `strings.TrimRight(s, "\n")`. */
  function TrimNewlines(s: string): string {
    if s != "" && s[|s| - 1] == '\n' then TrimNewlines(s[..|s| - 1]) else s
  }

  predicate Trimmed(s: string) {
    s != "" ==> !IsSpace(s[0]) && !IsSpace(s[|s| - 1])
  }

  lemma TrimOfTrimmed(s: string)
    requires Trimmed(s)
    ensures TrimSpace(s) == s
  {
  }

  lemma {:induction false} TrimRightTwice(s: string)
    ensures TrimRight(TrimRight(s)) == TrimRight(s)
  {
    if s != "" && IsSpace(s[|s| - 1]) { TrimRightTwice(s[..|s| - 1]); }
  }

  /** Trimming stops at the last character of a prefix that is not a space. */
  lemma {:induction false} TrimRightBehind(p: string, s: string)
    requires p != "" && !IsSpace(p[|p| - 1])
    ensures TrimRight(p + s) == p + TrimRight(s)
  {
    if s == "" {
      assert p + s == p;
    } else {
      var n := |s| - 1;
      assert (p + s)[|p + s| - 1] == s[n];
      if IsSpace(s[n]) {
        TrimRightBehind(p, s[..n]);
        assert (p + s)[..|p + s| - 1] == p + s[..n];
      }
    }
  }

  lemma TrimOfSpaced(s: string)
    requires s == "" || !IsSpace(s[|s| - 1])
    ensures TrimSpace(" " + s) == TrimLeft(s)
  {
    if s == "" {
      assert " " + s == " ";
      assert TrimRight(" ") == TrimRight(" "[..0]);
    } else {
      assert (" " + s)[1..] == s;
    }
  }

  predicate AllSpace(s: string) { forall i :: 0 <= i < |s| ==> IsSpace(s[i]) }

  lemma {:induction false} LeftTrimmed(s: string) returns (a: string)
    ensures s == a + TrimLeft(s) && AllSpace(a)
    ensures TrimLeft(s) != "" ==> !IsSpace(TrimLeft(s)[0]) && TrimLeft(s)[|TrimLeft(s)| - 1] == s[|s| - 1]
  {
    if s != "" && IsSpace(s[0]) {
      a := LeftTrimmed(s[1..]);
      a := [s[0]] + a;
    } else {
      a := "";
    }
  }

  lemma {:induction false} RightTrimmed(s: string) returns (b: string)
    ensures s == TrimRight(s) + b && AllSpace(b)
    ensures TrimRight(s) != "" ==> !IsSpace(TrimRight(s)[|TrimRight(s)| - 1])
  {
    if s != "" && IsSpace(s[|s| - 1]) {
      b := RightTrimmed(s[..|s| - 1]);
      b := b + [s[|s| - 1]];
    } else {
      b := "";
    }
  }

  /** Trimming takes white space, and nothing else, off both ends, all of it. */
  lemma TrimSpaceExactly(s: string) returns (a: string, b: string)
    ensures s == a + TrimSpace(s) + b && AllSpace(a) && AllSpace(b) && Trimmed(TrimSpace(s))
  {
    b := RightTrimmed(s);
    a := LeftTrimmed(TrimRight(s));
  }

  /** A space more in front changes nothing. */
  lemma TrimBehindSpace(s: string)
    ensures TrimSpace(" " + s) == TrimSpace(s)
  {
    if TrimRight(s) == "" {
      TrimRightOfSpace(s);
    } else {
      var b := RightTrimmed(s);
      var t := " " + TrimRight(s);
      TrimRightBehind(t, b);
      AllSpaceIsTrimmed(b);
      assert t + b == " " + s && t + "" == t && t[1..] == TrimRight(s);
    }
  }

  lemma {:induction false} AllSpaceIsTrimmed(s: string)
    requires AllSpace(s)
    ensures TrimRight(s) == ""
  {
    if s != "" { AllSpaceIsTrimmed(s[..|s| - 1]); }
  }

  lemma TrimRightOfSpace(s: string)
    requires TrimRight(s) == ""
    ensures TrimSpace(" " + s) == "" && TrimSpace(s) == ""
  {
    var b := RightTrimmed(s);
    assert AllSpace(" " + s);
    AllSpaceIsTrimmed(" " + s);
  }

  /** Exactly the newlines at the end are taken off. */
  lemma {:induction false} TrimNewlinesExactly(s: string) returns (b: string)
    ensures s == TrimNewlines(s) + b && forall i :: 0 <= i < |b| ==> b[i] == '\n'
    ensures TrimNewlines(s) != "" ==> TrimNewlines(s)[|TrimNewlines(s)| - 1] != '\n'
  {
    if s != "" && s[|s| - 1] == '\n' {
      b := TrimNewlinesExactly(s[..|s| - 1]);
      b := b + "\n";
    } else {
      b := "";
    }
  }
}
