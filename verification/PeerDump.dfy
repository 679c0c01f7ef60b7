/**
 The peer list as the server prints it: `awg show <iface> dump`, one line for the interface and
 one line of tab-separated fields for each peer.
 */
module PeerDump {
  import opened Text
  import opened Strings

  datatype Entry = Entry(
    publicKey: string, presharedKey: string, endpoint: string, allowedIPs: string,
    lastHandshake: string, rxBytes: string, txBytes: string, keepalive: string)

  const FIELDS := 8

  function EntryOf(fields: seq<string>): Entry
    requires |fields| >= FIELDS
  {
    Entry(fields[0], fields[1], fields[2], fields[3], fields[4], fields[5], fields[6], fields[7])
  }

  /** The lines with at least eight fields. */
  function Entries(lines: seq<string>): seq<Entry> {
    if lines == [] then []
    else
      var n := |lines| - 1;
      var fields := Split(lines[n], '\t');
      if |fields| < FIELDS then Entries(lines[..n]) else Entries(lines[..n]) + [EntryOf(fields)]
  }

  function Parsed(raw: string): seq<Entry> {
    var lines := Split(TrimSpace(raw), '\n');
    if |lines| < 2 then [] else Entries(lines[1..])
  }

  method ParseDumpOutput(raw: string) returns (peers: seq<Entry>)
    ensures peers == Parsed(raw)
  {
    var lines := Split(TrimSpace(raw), '\n');
    peers := [];
    if |lines| < 2 {
      return;
    }
    var rest := lines[1..];
    for i := 0 to |rest|
      invariant peers == Entries(rest[..i])
    {
      assert rest[..i + 1][..i] == rest[..i];
      var fields := Split(rest[i], '\t');
      if |fields| < FIELDS {
        continue;
      }
      peers := peers + [EntryOf(fields)];
    }
    assert rest[..|rest|] == rest;
  }

  // ---------- the dump it reads ----------

  function Join(fields: seq<string>, sep: char): string
    requires fields != []
  {
    if |fields| == 1 then fields[0] else fields[0] + [sep] + Join(fields[1..], sep)
  }

  function FieldsOf(e: Entry): seq<string> {
    [e.publicKey, e.presharedKey, e.endpoint, e.allowedIPs, e.lastHandshake, e.rxBytes, e.txBytes, e.keepalive]
  }

  function DumpLine(e: Entry): string { Join(FieldsOf(e), '\t') }

  function DumpLines(peers: seq<Entry>): seq<string> {
    if peers == [] then [] else DumpLines(peers[..|peers| - 1]) + [DumpLine(peers[|peers| - 1])]
  }

  /** What the server prints: every line is ended by a newline. */
  function Dump(header: string, peers: seq<Entry>): string {
    Unlines([header] + DumpLines(peers), '\n')
  }

  /** The columns of the dump in their order; a line with fewer than eight is no peer. */
  lemma ColumnsInOrder(lines: seq<string>, line: string)
    ensures var f := Split(line, '\t');
      Entries(lines + [line]) ==
        if |f| >= 8 then Entries(lines) + [Entry(f[0], f[1], f[2], f[3], f[4], f[5], f[6], f[7])] else Entries(lines)
  {
    assert (lines + [line])[..|lines|] == lines;
  }

  /** Fields hold no white space, and a peer has a key; the keepalive may be empty. */
  predicate Tidy(e: Entry) {
    e.publicKey != "" && forall f :: f in FieldsOf(e) ==> NoSpace(f)
  }

  predicate NoSpace(s: string) { forall i :: 0 <= i < |s| ==> !IsSpace(s[i]) }

  predicate TidyHeader(header: string) {
    header != "" && !IsSpace(header[0]) && '\n' !in header
  }

  lemma {:induction false} SplitJoin(fields: seq<string>, sep: char)
    requires fields != [] && forall f :: f in fields ==> sep !in f
    ensures Split(Join(fields, sep), sep) == fields
  {
    assert fields[0] in fields;
    SplitWithoutSeparator(fields[0], sep);
    if |fields| > 1 {
      SplitJoin(fields[1..], sep);
      SplitAtSeparator(fields[0], Join(fields[1..], sep), sep);
      assert [fields[0]] + fields[1..] == fields;
    }
  }

  lemma NoSpaceHasNoSeparator(s: string)
    requires NoSpace(s)
    ensures '\t' !in s && '\n' !in s
  {
  }

  lemma DumpLineFields(e: Entry)
    requires Tidy(e)
    ensures Split(DumpLine(e), '\t') == FieldsOf(e)
  {
    forall f | f in FieldsOf(e) ensures '\t' !in f { NoSpaceHasNoSeparator(f); }
    SplitJoin(FieldsOf(e), '\t');
  }

  lemma {:induction false} JoinHas(fields: seq<string>, sep: char, c: char)
    requires fields != [] && c != sep && forall f :: f in fields ==> c !in f
    ensures c !in Join(fields, sep)
  {
    assert fields[0] in fields;
    if |fields| > 1 { JoinHas(fields[1..], sep, c); }
  }

  lemma DumpLineIsOneLine(e: Entry)
    requires Tidy(e)
    ensures '\n' !in DumpLine(e)
  {
    forall f | f in FieldsOf(e) ensures '\n' !in f { NoSpaceHasNoSeparator(f); }
    JoinHas(FieldsOf(e), '\t', '\n');
  }

  lemma {:induction false} DumpLinesShape(peers: seq<Entry>)
    requires forall e :: e in peers ==> Tidy(e)
    ensures |DumpLines(peers)| == |peers|
    ensures forall l :: l in DumpLines(peers) ==> '\n' !in l
    ensures Entries(DumpLines(peers)) == peers
  {
    if peers != [] {
      var n := |peers| - 1;
      DumpLinesShape(peers[..n]);
      assert peers[n] in peers;
      DumpLineFields(peers[n]);
      DumpLineIsOneLine(peers[n]);
      assert DumpLines(peers)[..n] == DumpLines(peers[..n]);
      assert peers == peers[..n] + [peers[n]];
    }
  }

  /** The dump without the newline behind its last line. */
  lemma DumpOfLast(header: string, init: seq<Entry>, last: Entry)
    ensures Dump(header, init + [last]) == Dump(header, init) + (DumpLine(last) + "\n")
  {
    var peers := init + [last];
    assert peers[..|peers| - 1] == init;
    assert [header] + DumpLines(peers) == ([header] + DumpLines(init)) + [DumpLine(last)];
    UnlinesAppend([header] + DumpLines(init), [DumpLine(last)], '\n');
    assert Unlines([DumpLine(last)], '\n') == DumpLine(last) + "\n";
  }

  lemma TrimStops(p: string, tail: string)
    requires p != "" && !IsSpace(p[0]) && !IsSpace(p[|p| - 1]) && TrimRight(tail) == ""
    ensures TrimSpace(p + tail) == p
  {
    TrimRightBehind(p, tail);
    assert p + "" == p;
  }

  lemma DumpStarts(header: string, peers: seq<Entry>)
    requires header != ""
    ensures Dump(header, peers) != "" && Dump(header, peers)[0] == header[0]
  {
  }

  /** Lines in front of a last line that is not ended. */
  lemma SplitDump(header: string, init: seq<Entry>, last: string)
    requires TidyHeader(header) && '\n' !in last && forall e :: e in init ==> Tidy(e)
    ensures Split(Dump(header, init) + last, '\n') == [header] + DumpLines(init) + [last]
  {
    DumpLinesShape(init);
    SplitUnlines([header] + DumpLines(init), last, '\n');
    SplitWithoutSeparator(last, '\n');
  }

  lemma EntriesOfParts(header: string, init: seq<Entry>, last: string)
    requires forall e :: e in init ==> Tidy(e)
    ensures var lines := [header] + DumpLines(init) + [last]; var fields := Split(last, '\t');
      Entries(lines[1..]) == if |fields| < FIELDS then init else init + [EntryOf(fields)]
  {
    DumpLinesShape(init);
    BehindHeader(header, DumpLines(init), last);
    ColumnsInOrder(DumpLines(init), last);
  }

  lemma BehindHeader(header: string, lines: seq<string>, last: string)
    ensures ([header] + lines + [last])[1..] == lines + [last]
  {
  }

  lemma {:induction false} JoinEnds(fields: seq<string>, sep: char)
    requires fields != []
    ensures |Join(fields, sep)| >= |fields[0]| + (|fields| - 1)
    ensures fields[0] != "" ==> Join(fields, sep)[0] == fields[0][0]
    ensures var last := fields[|fields| - 1];
      |Join(fields, sep)| >= |last| && Join(fields, sep)[|Join(fields, sep)| - |last|..] == last
    decreases fields
  {
    if |fields| > 1 {
      JoinEnds(fields[1..], sep);
      var rest, last := Join(fields[1..], sep), fields[|fields| - 1];
      var all := Join(fields, sep);
      assert all == fields[0] + [sep] + rest;
      assert all[|all| - |last|..] == rest[|rest| - |last|..];
    }
  }

  /** The last peer as the trimmed text shows it. */
  lemma ParsedTail(header: string, init: seq<Entry>, last: string, tail: string)
    requires TidyHeader(header) && forall e :: e in init ==> Tidy(e)
    requires '\n' !in last && last != "" && !IsSpace(last[|last| - 1]) && TrimRight(tail) == ""
    ensures var fields := Split(last, '\t');
      Parsed(Dump(header, init) + (last + tail)) == if |fields| < FIELDS then init else init + [EntryOf(fields)]
  {
    var p := Dump(header, init) + last;
    DumpStarts(header, init);
    assert Dump(header, init) + (last + tail) == p + tail;
    TrimStops(p, tail);
    SplitDump(header, init, last);
    EntriesOfParts(header, init, last);
  }

  lemma KeepaliveEndsLine(e: Entry)
    requires Tidy(e) && e.keepalive != ""
    ensures DumpLine(e) != "" && !IsSpace(DumpLine(e)[|DumpLine(e)| - 1])
  {
    JoinEnds(FieldsOf(e), '\t');
    var l := DumpLine(e);
    assert FieldsOf(e)[7] == e.keepalive && e.keepalive in FieldsOf(e);
    assert l[|l| - |e.keepalive|..][|e.keepalive| - 1] == l[|l| - 1];
  }

  lemma {:induction false} SplitPrefix(s: string, k: nat, sep: char)
    requires k <= |s|
    ensures |Split(s[..k], sep)| <= |Split(s, sep)|
    decreases s
  {
    if k > 0 {
      SplitPrefix(s[1..], k - 1, sep);
      assert s[..k][1..] == s[1..][..k - 1];
    }
  }

  lemma {:induction false} TrimRightIsPrefix(s: string) returns (k: nat)
    ensures k <= |s| && TrimRight(s) == s[..k]
    ensures k > 0 ==> !IsSpace(s[k - 1])
    ensures TrimRight(s[k..]) == ""
  {
    if s != "" && IsSpace(s[|s| - 1]) {
      k := TrimRightIsPrefix(s[..|s| - 1]);
      var tail := s[k..];
      assert tail[..|tail| - 1] == s[..|s| - 1][k..];
      assert s[..|s| - 1][..k] == s[..k];
    } else {
      k := |s|;
      assert s[..k] == s && s[k..] == "";
    }
  }

  lemma {:induction false} JoinSnoc(fields: seq<string>, last: string, sep: char)
    requires fields != []
    ensures Join(fields + [last], sep) == Join(fields, sep) + [sep] + last
    decreases fields
  {
    assert (fields + [last])[1..] == fields[1..] + [last];
    if |fields| > 1 { JoinSnoc(fields[1..], last, sep); }
  }

  /** The line of a peer without a keepalive: seven fields, of which k characters stay, and space. */
  lemma LineWithoutKeepalive(e: Entry) returns (k: nat)
    requires Tidy(e) && e.keepalive == ""
    ensures var line := Join(FieldsOf(e)[..7], '\t');
      && 0 < k <= |line| && !IsSpace(line[k - 1])
      && DumpLine(e) + "\n" == line[..k] + (line[k..] + "\t\n")
      && TrimRight(line[k..] + "\t\n") == ""
  {
    var seven := FieldsOf(e)[..7];
    var line := Join(seven, '\t');
    assert FieldsOf(e) == seven + [""];
    JoinSnoc(seven, "", '\t');
    SevenStarts(e);
    k := TrimKeepsStart(line);
    CutBefore(line, k, "\t\n");
    TrimTabNewline(line[k..]);
  }

  lemma CutBefore(line: string, k: nat, tail: string)
    requires k <= |line|
    ensures line + tail == line[..k] + (line[k..] + tail)
  {
  }

  lemma TrimKeepsStart(line: string) returns (k: nat)
    requires line != "" && !IsSpace(line[0])
    ensures 0 < k <= |line| && !IsSpace(line[k - 1]) && TrimRight(line[k..]) == ""
  {
    k := TrimRightIsPrefix(line);
    TrimRightBehind(line[..1], line[1..]);
    assert line == line[..1] + line[1..];
  }

  lemma SevenStarts(e: Entry)
    requires Tidy(e)
    ensures var line := Join(FieldsOf(e)[..7], '\t'); line != "" && !IsSpace(line[0])
  {
    JoinEnds(FieldsOf(e)[..7], '\t');
    assert e.publicKey in FieldsOf(e);
  }

  /** Without a keepalive the line's trailing tabs are trimmed off with the newline: too few fields. */
  lemma EmptyKeepaliveIsLost(header: string, init: seq<Entry>, e: Entry)
    requires TidyHeader(header) && Tidy(e) && e.keepalive == "" && forall x :: x in init ==> Tidy(x)
    ensures Parsed(Dump(header, init + [e])) == init
  {
    var line := Join(FieldsOf(e)[..7], '\t');
    var k := LineWithoutKeepalive(e);
    DumpOfLast(header, init, e);
    SevenIsOneLine(e);
    SplitSeven(e, k);
    ParsedTail(header, init, line[..k], line[k..] + "\t\n");
  }

  lemma SevenIsOneLine(e: Entry)
    requires Tidy(e)
    ensures '\n' !in Join(FieldsOf(e)[..7], '\t')
  {
    forall f | f in FieldsOf(e)[..7] ensures '\n' !in f {
      assert f in FieldsOf(e);
      NoSpaceHasNoSeparator(f);
    }
    JoinHas(FieldsOf(e)[..7], '\t', '\n');
  }

  lemma SplitSeven(e: Entry, k: nat)
    requires Tidy(e) && k <= |Join(FieldsOf(e)[..7], '\t')|
    ensures |Split(Join(FieldsOf(e)[..7], '\t')[..k], '\t')| <= 7
  {
    var seven := FieldsOf(e)[..7];
    forall f | f in seven ensures '\t' !in f {
      assert f in FieldsOf(e);
      NoSpaceHasNoSeparator(f);
    }
    SplitJoin(seven, '\t');
    SplitPrefix(Join(seven, '\t'), k, '\t');
  }

  lemma TrimTabNewline(s: string)
    requires TrimRight(s) == ""
    ensures TrimRight(s + "\t\n") == ""
  {
    var t := s + "\t\n";
    assert t[..|t| - 1] == s + "\t";
    assert (s + "\t")[..|s|] == s;
  }

  /** The parsed dump is the list of peers iff there are none or the last one has a keepalive. */
  lemma DumpRoundTripIff(header: string, peers: seq<Entry>)
    requires TidyHeader(header) && forall e :: e in peers ==> Tidy(e)
    ensures Parsed(Dump(header, peers)) == peers <==> peers == [] || peers[|peers| - 1].keepalive != ""
  {
    if peers == [] {
      assert [header] + DumpLines(peers) == [header] && [header][1..] == [];
      assert Unlines([header], '\n') == header + "\n";
      assert Dump(header, peers) == header + "\n";
      HeaderAlone(header);
    } else {
      var init, e := peers[..|peers| - 1], peers[|peers| - 1];
      assert peers == init + [e] && e in peers;
      if e.keepalive == "" {
        EmptyKeepaliveIsLost(header, init, e);
      } else {
        DumpOfLast(header, init, e);
        KeepaliveEndsLine(e);
        DumpLineIsOneLine(e);
        DumpLineFields(e);
        assert TrimRight("\n") == "" by { assert "\n"[..0] == ""; }
        ParsedTail(header, init, DumpLine(e), "\n");
        assert EntryOf(FieldsOf(e)) == e;
      }
    }
  }

  lemma HeaderAlone(header: string)
    requires TidyHeader(header)
    ensures Parsed(header + "\n") == []
  {
    var k := TrimRightIsPrefix(header + "\n");
    var t := TrimLeft((header + "\n")[..k]);
    TrimLeftIsSuffix((header + "\n")[..k]);
    assert (header + "\n")[|header|] == '\n';
    assert '\n' !in (header + "\n")[..k];
    SplitWithoutSeparator(t, '\n');
  }

  lemma {:induction false} TrimLeftIsSuffix(s: string)
    ensures forall c :: c in TrimLeft(s) ==> c in s
  {
    if s != "" && IsSpace(s[0]) { TrimLeftIsSuffix(s[1..]); }
  }
}
