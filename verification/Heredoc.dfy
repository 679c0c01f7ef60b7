/**
 Here-documents with a quoted delimiter, after section 2.7.4 of the POSIX.1-2017 Shell Command
 Language: the command gets the lines up to the first one that is the delimiter, as they are,
 and the shell goes on with the lines behind it.
 */
module Heredoc {
  import opened Text

  function Before(lines: seq<string>, delim: string): seq<string> {
    if lines == [] || lines[0] == delim then [] else [lines[0]] + Before(lines[1..], delim)
  }

  function Behind(lines: seq<string>, delim: string): seq<string> {
    if lines == [] then [] else if lines[0] == delim then lines[1..] else Behind(lines[1..], delim)
  }

  /** What the command reads from a script that ends in this body and the delimiter. */
  function Carried(body: string, delim: string): string {
    Unlines(Before(Lines(body + delim, '\n'), delim), '\n')
  }

  /** The lines of that script the shell takes for commands after the here-document. */
  function LeftToRun(body: string, delim: string): seq<string> {
    Behind(Lines(body + delim, '\n'), delim)
  }

  lemma {:induction false} FirstDelimiter(lines: seq<string>, rest: seq<string>, delim: string)
    requires forall i :: 0 <= i < |lines| ==> lines[i] != delim
    ensures Before(lines + [delim] + rest, delim) == lines
    ensures Behind(lines + [delim] + rest, delim) == rest
  {
    var all := lines + [delim] + rest;
    if lines == [] {
      assert all == [delim] + rest;
    } else {
      assert all[0] == lines[0] && all[1..] == lines[1..] + [delim] + rest;
      FirstDelimiter(lines[1..], rest, delim);
    }
  }

  lemma {:induction false} CutAtDelimiter(lines: seq<string>, delim: string)
    returns (head: seq<string>, tail: seq<string>)
    requires delim in lines
    ensures lines == head + [delim] + tail && forall i :: 0 <= i < |head| ==> head[i] != delim
  {
    if lines[0] == delim {
      head, tail := [], lines[1..];
    } else {
      head, tail := CutAtDelimiter(lines[1..], delim);
      assert lines == [lines[0]] + lines[1..];
      head := [lines[0]] + head;
    }
  }

  predicate Delimits(delim: string) { delim != "" && '\n' !in delim }

  lemma LinesOfScript(body: string, delim: string)
    requires Terminated(body, '\n') && Delimits(delim)
    ensures Lines(body + delim, '\n') == Lines(body, '\n') + [delim] + []
  {
    LastLine(body, delim, delim, '\n');
  }

  lemma Regroup(a: seq<string>, b: seq<string>, c: seq<string>)
    ensures a + b + c + [] == a + (b + c)
  {
  }

  lemma CutShort(body: string, delim: string, head: seq<string>, tail: seq<string>)
    requires Terminated(body, '\n') && Delimits(delim) && Lines(body, '\n') == head + [delim] + tail
    requires forall i :: 0 <= i < |head| ==> head[i] != delim
    ensures Carried(body, delim) == Unlines(head, '\n')
    ensures LeftToRun(body, delim) == tail + [delim]
  {
    LinesOfScript(body, delim);
    Regroup(head + [delim], tail, [delim]);
    FirstDelimiter(head, tail + [delim], delim);
  }

  lemma ShorterText(head: seq<string>, delim: string, tail: seq<string>)
    ensures |Unlines(head, '\n')| < |Unlines(head + [delim] + tail, '\n')|
  {
    UnlinesAppend(head, [delim] + tail, '\n');
    assert head + [delim] + tail == head + ([delim] + tail);
  }

  /**
   The command reads exactly the body, and the shell runs nothing else, iff no line of the body
   is the delimiter.
   */
  lemma CarriedIff(body: string, delim: string)
    requires Terminated(body, '\n') && Delimits(delim)
    ensures Carried(body, delim) == body <==> delim !in Lines(body, '\n')
    ensures LeftToRun(body, delim) == [] <==> delim !in Lines(body, '\n')
  {
    UnlinesOfLines(body, '\n');
    if delim in Lines(body, '\n') {
      var head, tail := CutAtDelimiter(Lines(body, '\n'), delim);
      CutShort(body, delim, head, tail);
      ShorterText(head, delim, tail);
    } else {
      LinesOfScript(body, delim);
      FirstDelimiter(Lines(body, '\n'), [], delim);
    }
  }
}
