/**
 Splitting and joining of text: the parts of Go's `strings` and `bufio` packages that the
 daemon's line-oriented formats are built on, with the laws that connect them.
 */
module Text {

  /** The pieces between separators, as `strings.Split` returns them: always at least one. */
  function Split<T(==)>(s: seq<T>, sep: T): (pieces: seq<seq<T>>)
    ensures |pieces| >= 1
  {
    if s == [] then [[]]
    else if s[0] == sep then [[]] + Split(s[1..], sep)
    else PrependToFirst(s[0], Split(s[1..], sep))
  }

  function PrependToFirst<T>(c: T, pieces: seq<seq<T>>): seq<seq<T>>
    requires |pieces| >= 1
  {
    [[c] + pieces[0]] + pieces[1..]
  }

  /** Every piece followed by a separator. */
  function Unlines<T>(lines: seq<seq<T>>, sep: T): seq<T> {
    if lines == [] then [] else lines[0] + [sep] + Unlines(lines[1..], sep)
  }

  /** The lines of a text: the pieces between separators, without a final empty piece. */
  function Lines<T(==)>(s: seq<T>, sep: T): seq<seq<T>> { WithoutLastEmpty(Split(s, sep)) }

  function WithoutLastEmpty<T(==)>(pieces: seq<seq<T>>): seq<seq<T>>
    requires pieces != []
  {
    if pieces[|pieces| - 1] == [] then pieces[..|pieces| - 1] else pieces
  }

  /** A text whose last line, if there is one, is ended by a separator. */
  predicate Terminated<T(==)>(s: seq<T>, sep: T) {
    s == [] || s[|s| - 1] == sep
  }

  /** A separator splits the text into two texts that are split independently. */
  lemma {:induction false} SplitAtSeparator<T>(a: seq<T>, b: seq<T>, sep: T)
    ensures Split(a + [sep] + b, sep) == Split(a, sep) + Split(b, sep)
  {
    var s := a + [sep] + b;
    if a == [] {
      assert s[1..] == b;
    } else {
      SplitAtSeparator(a[1..], b, sep);
      assert s[1..] == a[1..] + [sep] + b && s[0] == a[0];
      if a[0] == sep {
        assert [[]] + (Split(a[1..], sep) + Split(b, sep)) == ([[]] + Split(a[1..], sep)) + Split(b, sep);
      } else {
        PrependBefore(a[0], Split(a[1..], sep), Split(b, sep));
      }
    }
  }

  lemma PrependBefore<T>(c: T, first: seq<seq<T>>, second: seq<seq<T>>)
    requires first != []
    ensures PrependToFirst(c, first + second) == PrependToFirst(c, first) + second
  {
  }

  lemma {:induction false} PiecesWithoutSeparator<T>(s: seq<T>, sep: T)
    ensures forall p :: p in Split(s, sep) ==> sep !in p
  {
    if s != [] { PiecesWithoutSeparator(s[1..], sep); }
  }

  lemma LineWithoutSeparator<T>(s: seq<T>, sep: T, i: nat)
    requires i < |Lines(s, sep)|
    ensures sep !in Lines(s, sep)[i]
  {
    PiecesWithoutSeparator(s, sep);
    assert Lines(s, sep)[i] == Split(s, sep)[i];
  }

  lemma {:induction false} SplitWithoutSeparator<T>(s: seq<T>, sep: T)
    requires sep !in s
    ensures Split(s, sep) == [s]
  {
    if s != [] {
      SplitWithoutSeparator(s[1..], sep);
      assert [s[0]] + s[1..] == s;
    }
  }

  /** A text with separators can be cut at its first one. */
  lemma {:induction false} FirstSeparator<T>(s: seq<T>, sep: T) returns (i: nat)
    requires sep in s
    ensures i < |s| && s[i] == sep && sep !in s[..i]
    ensures s == s[..i] + [sep] + s[i + 1..]
  {
    if s[0] == sep {
      i := 0;
    } else {
      assert sep in s[1..];
      i := FirstSeparator(s[1..], sep);
      i := i + 1;
      assert s[..i] == [s[0]] + s[1..][..i - 1];
    }
  }

  /** A separator-free piece in front of a separator is the first piece of the text. */
  lemma SplitCons<T>(a: seq<T>, b: seq<T>, sep: T)
    requires sep !in a
    ensures Split(a + [sep] + b, sep) == [a] + Split(b, sep)
  {
    SplitAtSeparator(a, b, sep);
    SplitWithoutSeparator(a, sep);
  }

  lemma AppendThenDrop<T>(a: seq<seq<T>>, b: seq<seq<T>>)
    requires b != []
    ensures WithoutLastEmpty(a + b) == a + WithoutLastEmpty(b)
  {
  }

  /** So it is the first line. */
  lemma LinesCons<T>(l: seq<T>, rest: seq<T>, sep: T)
    requires sep !in l
    ensures Lines(l + [sep] + rest, sep) == [l] + Lines(rest, sep)
  {
    SplitCons(l, rest, sep);
    AppendThenDrop([l], Split(rest, sep));
  }

  /** Terminated lines in front of a text are its first pieces. */
  lemma {:induction false} SplitUnlines<T>(lines: seq<seq<T>>, rest: seq<T>, sep: T)
    requires forall i :: 0 <= i < |lines| ==> sep !in lines[i]
    ensures Split(Unlines(lines, sep) + rest, sep) == lines + Split(rest, sep)
  {
    if lines == [] {
      assert Unlines(lines, sep) + rest == rest;
    } else {
      SplitUnlines(lines[1..], rest, sep);
      SplitCons(lines[0], Unlines(lines[1..], sep) + rest, sep);
      FirstOfUnlines(lines, rest, sep);
      PutFirst(lines, Split(rest, sep));
    }
  }

  lemma FirstOfUnlines<T>(lines: seq<seq<T>>, rest: seq<T>, sep: T)
    requires lines != []
    ensures Unlines(lines, sep) + rest == lines[0] + [sep] + (Unlines(lines[1..], sep) + rest)
  {
  }

  lemma PutFirst<T>(a: seq<T>, b: seq<T>)
    requires a != []
    ensures [a[0]] + (a[1..] + b) == a + b
  {
  }

  lemma LinesAfterSeparator<T>(body: seq<T>, t: seq<T>, sep: T)
    ensures Lines(body + [sep] + t, sep) == Split(body, sep) + Lines(t, sep)
  {
    SplitAtSeparator(body, t, sep);
    AppendThenDrop(Split(body, sep), Split(t, sep));
  }

  lemma LinesOfSeparated<T>(body: seq<T>, sep: T)
    ensures Lines(body + [sep], sep) == Split(body, sep)
  {
    LinesAfterSeparator(body, [], sep);
    assert body + [sep] + [] == body + [sep];
  }

  /** Appending to a terminated text appends to its lines. */
  lemma LinesAppend<T>(s: seq<T>, t: seq<T>, sep: T)
    requires Terminated(s, sep)
    ensures Lines(s + t, sep) == Lines(s, sep) + Lines(t, sep)
  {
    if s == [] {
      assert s + t == t;
    } else {
      var body := s[..|s| - 1];
      assert s == body + [sep];
      LinesAfterSeparator(body, t, sep);
      LinesOfSeparated(body, sep);
    }
  }

  /** A text that is not terminated is terminated lines and a last piece without separator. */
  lemma {:induction false} TornTail<T>(s: seq<T>, sep: T) returns (head: seq<T>, tail: seq<T>)
    requires !Terminated(s, sep)
    ensures s == head + tail && Terminated(head, sep) && sep !in tail && tail != []
  {
    if sep in s {
      var k := FirstSeparator(s, sep);
      head, tail := TornTail(s[k + 1..], sep);
      head := s[..k] + [sep] + head;
    } else {
      head, tail := [], s;
    }
  }

  lemma SingleLine<T>(l: seq<T>, sep: T)
    requires sep !in l
    ensures l != [] ==> Lines(l, sep) == [l]
    ensures Lines(l + [sep], sep) == [l]
  {
    SplitWithoutSeparator(l, sep);
    LinesCons(l, [], sep);
    assert l + [sep] + [] == l + [sep];
    assert Lines<T>([], sep) == [];
  }

  /** What is written after terminated lines is one more line, with or without its separator. */
  lemma LastLine<T>(head: seq<T>, last: seq<T>, l: seq<T>, sep: T)
    requires Terminated(head, sep) && sep !in l
    requires last == l + [sep] || (last == l && l != [])
    ensures Lines(head + last, sep) == Lines(head, sep) + [l]
  {
    LinesAppend(head, last, sep);
    SingleLine(l, sep);
  }

  /** The lines of a text can be read back, whatever they hold besides the separator. */
  lemma {:induction false} LinesOfUnlines<T>(lines: seq<seq<T>>, sep: T)
    requires forall l :: l in lines ==> sep !in l
    ensures Lines(Unlines(lines, sep), sep) == lines
    ensures Terminated(Unlines(lines, sep), sep)
  {
    if lines != [] {
      LinesOfUnlines(lines[1..], sep);
      LinesCons(lines[0], Unlines(lines[1..], sep), sep);
    }
  }

  /** A terminated text is its lines, each with a separator behind it. */
  lemma {:induction false} UnlinesOfLines<T>(s: seq<T>, sep: T)
    requires Terminated(s, sep)
    ensures Unlines(Lines(s, sep), sep) == s
  {
    if s != [] {
      var k := FirstSeparator(s, sep);
      LinesCons(s[..k], s[k + 1..], sep);
      UnlinesOfLines(s[k + 1..], sep);
    }
  }

  lemma {:induction false} UnlinesAppend<T>(a: seq<seq<T>>, b: seq<seq<T>>, sep: T)
    ensures Unlines(a + b, sep) == Unlines(a, sep) + Unlines(b, sep)
  {
    if a == [] {
      assert a + b == b;
    } else {
      UnlinesAppend(a[1..], b, sep);
      assert (a + b)[1..] == a[1..] + b;
    }
  }
}
