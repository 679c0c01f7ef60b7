/**
 The line scanner over a reader, and the known_hosts check that uses it. A reader is a script
 of the replies it will give before it reports its end; how it cuts the data is arbitrary.
 */
module LineScanner {
  import opened Text

  /** A reply of Read without an error: some bytes, or none. */
  datatype Reply = Data(bytes: string) | Nothing

  function DataOf(script: seq<Reply>): string {
    if script == [] then ""
    else (if script[0].Data? then script[0].bytes else "") + DataOf(script[1..])
  }

  class Reader {
    var script: seq<Reply>

    constructor (script: seq<Reply>)
      ensures this.script == script
    {
      this.script := script;
    }

    /** The bytes read, and whether the reader reported its end or another error instead. */
    method Read() returns (bytes: string, err: bool)
      modifies this
      ensures err == (old(script) == [])
      ensures err ==> bytes == "" && script == []
      ensures !err ==> script == old(script)[1..] && DataOf(old(script)) == bytes + DataOf(script)
    {
      if script == [] {
        return "", true;
      }
      bytes := if script[0].Data? then script[0].bytes else "";
      err := false;
      script := script[1..];
    }
  }

  class Scanner {
    const reader: Reader
    var buf: string
    var line: string

    /** Everything not yet handed out: what is buffered and what is unread. */
    ghost function Rest(): string
      reads this, reader
    {
      buf + DataOf(reader.script)
    }

    constructor (reader: Reader)
      ensures this.reader == reader && buf == ""
    {
      this.reader, buf, line := reader, "", "";
    }

    /** Hands out the next line of the rest, or reports that nothing is left. */
    method Scan() returns (ok: bool)
      modifies this, reader
      ensures ok <==> old(Rest()) != ""
      ensures Lines(old(Rest()), '\n') == if ok then [line] + Lines(Rest(), '\n') else []
      ensures ok ==> |Rest()| < |old(Rest())|
    {
      while true
        invariant Rest() == old(Rest())
        decreases |reader.script|
      {
        var i := IndexOf(buf, '\n');
        if i < |buf| {
          line := buf[..i];
          TakeLine(buf, i, DataOf(reader.script));
          buf := buf[i + 1..];
          return true;
        }
        var chunk, err := reader.Read();
        if chunk != "" {
          buf := buf + chunk;
          continue;
        }
        if err {
          assert old(Rest()) == buf;
          if buf != "" {
            line := buf;
            SingleLine(buf, '\n');
            buf := "";
            assert Rest() == "" && Lines(Rest(), '\n') == [];
            return true;
          }
          return false;
        }
      }
    }
  }

  /** `strings.IndexByte`, with the length for -1. */
  function IndexOf(s: string, c: char): (i: nat)
    ensures i <= |s| && c !in s[..i] && (i < |s| ==> s[i] == c)
  {
    if s == "" || s[0] == c then 0
    else
      var k := IndexOf(s[1..], c);
      assert s[..k + 1] == [s[0]] + s[1..][..k];
      k + 1
  }

  lemma TakeLine(buf: string, i: nat, unread: string)
    requires i < |buf| && buf[i] == '\n' && '\n' !in buf[..i]
    ensures Lines(buf + unread, '\n') == [buf[..i]] + Lines(buf[i + 1..] + unread, '\n')
  {
    assert buf + unread == buf[..i] + ['\n'] + (buf[i + 1..] + unread);
    LinesCons(buf[..i], buf[i + 1..] + unread, '\n');
  }

  /** The lines from the one just scanned on. */
  function Ahead(ok: bool, line: string, rest: string): seq<string> {
    if ok then [line] + Lines(rest, '\n') else []
  }

  lemma Shift(seen: seq<string>, line: string, rest: seq<string>)
    ensures seen + ([line] + rest) == seen + [line] + rest
  {
  }

  /** Reading to the end yields exactly the lines of the data, however the reader cut it. */
  method ReadLines(reader: Reader) returns (lines: seq<string>)
    modifies reader
    ensures lines == Lines(old(DataOf(reader.script)), '\n')
  {
    var scanner := new Scanner(reader);
    assert scanner.Rest() == old(DataOf(reader.script));
    lines := Drain(scanner);
  }

  method Drain(scanner: Scanner) returns (lines: seq<string>)
    modifies scanner, scanner.reader
    ensures lines == Lines(old(scanner.Rest()), '\n')
  {
    ghost var all := Lines(scanner.Rest(), '\n');
    lines := [];
    var ok := scanner.Scan();
    while ok
      invariant all == lines + Ahead(ok, scanner.line, scanner.Rest())
      decreases ok, |scanner.Rest()|
    {
      Shift(lines, scanner.line, Lines(scanner.Rest(), '\n'));
      lines := lines + [scanner.line];
      ok := scanner.Scan();
    }
  }

  // ---------- chunking ----------

  lemma {:induction false} DataOfConcat(a: seq<Reply>, b: seq<Reply>)
    ensures DataOf(a + b) == DataOf(a) + DataOf(b)
  {
    if a == [] {
      assert a + b == b;
    } else {
      assert (a + b)[1..] == a[1..] + b;
      DataOfConcat(a[1..], b);
    }
  }

  /** Cutting one reply in two, at any place, or inserting an empty one changes no data. */
  lemma Recut(a: seq<Reply>, x: string, y: string, b: seq<Reply>)
    ensures DataOf(a + [Data(x), Data(y)] + b) == DataOf(a + [Data(x + y)] + b)
    ensures DataOf(a + [Nothing] + b) == DataOf(a + b)
  {
    DataOfConcat(a + [Data(x), Data(y)], b);
    DataOfConcat(a, [Data(x), Data(y)]);
    DataOfConcat(a + [Data(x + y)], b);
    DataOfConcat(a, [Data(x + y)]);
    DataOfConcat(a + [Nothing], b);
    DataOfConcat(a, [Nothing]);
    DataOfConcat(a, b);
    DataOfConcat([Data(x)], [Data(y)]);
    assert [Data(x)] + [Data(y)] == [Data(x), Data(y)];
    DataOfOne(x);
    DataOfOne(y);
    DataOfOne(x + y);
    assert DataOf([Nothing]) == "" && DataOf(a) + "" == DataOf(a);
  }

  lemma DataOfOne(x: string)
    ensures DataOf([Data(x)]) == x
  {
  }

  // ---------- known hosts ----------

  /** The file after a host key was checked: a line not there yet is appended. */
  function Remembered(file: string, line: string): string {
    if line in Lines(file, '\n') then file else file + (line + "\n")
  }

  /** The callback's verdict on a key, and the file after it; `appends` tells whether the file can be written. */
  method CheckHostKey(file: string, reader: Reader, line: string, appends: bool) returns (after: string, accepted: bool)
    requires DataOf(reader.script) == file
    modifies reader
    ensures accepted <==> appends || line in Lines(file, '\n')
    ensures after == if appends && line !in Lines(file, '\n') then file + line + "\n" else file
  {
    var scanner := new Scanner(reader);
    assert scanner.Rest() == file;
    var known := Knows(scanner, line);
    accepted := known || appends;
    after := if known || !appends then file else file + line + "\n";
  }

  /** The check appends an unknown line, with a newline behind it, and nothing else. */
  lemma RememberedExactly(file: string, line: string)
    ensures Remembered(file, line) == if line !in Lines(file, '\n') then file + line + "\n" else file
  {
    assert file + (line + "\n") == file + line + "\n";
  }

  /** Scans until the line turns up or nothing is left. */
  method Knows(scanner: Scanner, line: string) returns (known: bool)
    modifies scanner, scanner.reader
    ensures known <==> line in Lines(old(scanner.Rest()), '\n')
  {
    ghost var all, seen := Lines(scanner.Rest(), '\n'), [];
    var ok := scanner.Scan();
    while ok
      invariant line !in seen
      invariant all == seen + Ahead(ok, scanner.line, scanner.Rest())
      decreases ok, |scanner.Rest()|
    {
      if scanner.line == line {
        assert Ahead(ok, scanner.line, scanner.Rest())[0] == line;
        return true;
      }
      Shift(seen, scanner.line, Lines(scanner.Rest(), '\n'));
      seen := seen + [scanner.line];
      ok := scanner.Scan();
    }
    known := false;
  }

  /**
   A host key is found again after it was checked iff it was there before or the file's last
   line was terminated; otherwise the new line is glued to the last one.
   */
  lemma FoundAgainIff(file: string, line: string)
    requires '\n' !in line
    ensures line in Lines(Remembered(file, line), '\n') <==> line in Lines(file, '\n') || Terminated(file, '\n')
  {
    if line !in Lines(file, '\n') {
      if Terminated(file, '\n') {
        LastLine(file, line + "\n", line, '\n');
      } else {
        var head, tail := TornTail(file, '\n');
        LastLine(head, tail, tail, '\n');
        LastLine(head, tail + line + "\n", tail + line, '\n');
        assert file + (line + "\n") == head + (tail + line + "\n");
        assert line != tail + line by { assert |tail + line| > |line|; }
      }
    }
  }

  /** On a terminated file, checking keeps every known line, and checking twice is checking once. */
  lemma CheckingTwice(file: string, line: string)
    requires '\n' !in line && Terminated(file, '\n')
    ensures var after := Remembered(file, line);
      && Terminated(after, '\n')
      && Remembered(after, line) == after
      && Lines(file, '\n') <= Lines(after, '\n')
  {
    FoundAgainIff(file, line);
    if line !in Lines(file, '\n') { LastLine(file, line + "\n", line, '\n'); }
  }

  function KeyLine(host: string, key: string): string { host + " " + key }

  /** The file after a host offered these keys, one connection each. */
  function AfterKeys(file: string, host: string, keys: seq<string>): string {
    if keys == [] then file
    else Remembered(AfterKeys(file, host, keys[..|keys| - 1]), KeyLine(host, keys[|keys| - 1]))
  }

  lemma OneMoreKey(before: string, line: string)
    requires Terminated(before, '\n') && '\n' !in line
    ensures var after := Remembered(before, line);
      && Terminated(after, '\n') && Lines(before, '\n') <= Lines(after, '\n')
      && line in Lines(after, '\n')
  {
    CheckingTwice(before, line);
    FoundAgainIff(before, line);
  }

  predicate AllRemembered(lines: seq<string>, host: string, keys: seq<string>) {
    forall i :: 0 <= i < |keys| ==> KeyLine(host, keys[i]) in lines
  }

  lemma RememberedByMore(known: seq<string>, lines: seq<string>, host: string, keys: seq<string>)
    requires keys != [] && known <= lines && AllRemembered(known, host, keys[..|keys| - 1])
    requires KeyLine(host, keys[|keys| - 1]) in lines
    ensures AllRemembered(lines, host, keys)
  {
    forall i | 0 <= i < |keys| - 1 ensures KeyLine(host, keys[i]) in lines {
      assert keys[..|keys| - 1][i] == keys[i];
      var j :| 0 <= j < |known| && known[j] == KeyLine(host, keys[i]);
      assert lines[j] == known[j];
    }
  }

  /**
   A changed key is accepted like a first one: every key a host offers is remembered beside the
   ones before it, so none of them is ever refused.
   */
  lemma {:induction false} EveryKeyIsRemembered(file: string, host: string, keys: seq<string>)
    requires Terminated(file, '\n') && forall i :: 0 <= i < |keys| ==> '\n' !in KeyLine(host, keys[i])
    ensures var after := AfterKeys(file, host, keys);
      && Terminated(after, '\n')
      && Lines(file, '\n') <= Lines(after, '\n')
      && AllRemembered(Lines(after, '\n'), host, keys)
  {
    if keys != [] {
      var n := |keys| - 1;
      var before := AfterKeys(file, host, keys[..n]);
      EveryKeyIsRemembered(file, host, keys[..n]);
      OneMoreKey(before, KeyLine(host, keys[n]));
      RememberedByMore(Lines(before, '\n'), Lines(AfterKeys(file, host, keys), '\n'), host, keys);
    }
  }
}
