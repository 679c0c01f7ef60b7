/**
 The parser undoes the printer: reading the provisioner's `awg0.conf` gives back what was
 printed, and appended peer blocks are invisible to it.
 */
module AwgConfLaws {
  import opened Wrappers
  import opened Text
  import opened Strings
  import opened Decimal
  import opened Addresses
  import opened AddressLaws
  import opened AwgConf
  import opened Heredoc

  const INTERFACE := "[Interface]"

  // ---------- lines ----------

  predicate IsKey(key: string) {
    key != "" && forall i :: 0 <= i < |key| ==> IsWordChar(key[i])
  }

  lemma WordCharIsNoSpace(c: char)
    requires IsWordChar(c)
    ensures !IsSpace(c) && !IsRegexSpace(c) && c != '[' && c != '#' && c != '='
  {
  }

  /** Trimming a field leaves its key and equals sign and trims the value on the right. */
  lemma TrimField(key: string, x: string)
    requires IsKey(key)
    ensures TrimSpace(key + " =" + x) == key + " =" + TrimRight(x)
  {
    TrimRightBehind(key + " =", x);
    WordCharIsNoSpace(key[0]);
    assert (key + " =" + TrimRight(x))[0] == key[0];
  }

  lemma FieldIsNoHeader(key: string, value: string)
    requires IsKey(key)
    ensures TrimSpace(Field(key, value)) != INTERFACE && !IsHeader(TrimSpace(Field(key, value)))
  {
    var x := " " + value;
    assert Field(key, value) == key + " =" + x;
    TrimField(key, x);
    WordCharIsNoSpace(key[0]);
    assert (key + " =" + TrimRight(x))[0] == key[0];
  }

  // ---------- peer blocks are invisible ----------

  predicate NoInterfaceHeader(lines: seq<string>) {
    forall i :: 0 <= i < |lines| ==> TrimSpace(lines[i]) != INTERFACE
  }

  lemma {:induction false} NothingWithoutHeader(lines: seq<string>)
    requires NoInterfaceHeader(lines)
    ensures SectionLines(lines, INTERFACE, false) == []
  {
    if lines != [] { NothingWithoutHeader(lines[1..]); }
  }

  predicate HasHeader(lines: seq<string>) {
    exists i :: 0 <= i < |lines| && TrimSpace(lines[i]) == INTERFACE
  }

  /** Inside the section, or with its header ahead, another section's header hides everything behind it. */
  lemma {:induction false} SectionEndsAtPeer(lines: seq<string>, rest: seq<string>, inSection: bool)
    requires inSection || HasHeader(lines)
    ensures SectionLines(lines + ["[Peer]"] + rest, INTERFACE, inSection) == SectionLines(lines, INTERFACE, inSection)
  {
    var all := lines + ["[Peer]"] + rest;
    if lines == [] {
      assert all[0] == "[Peer]";
      TrimOfTrimmed("[Peer]");
    } else {
      assert all[0] == lines[0] && all[1..] == lines[1..] + ["[Peer]"] + rest;
      if inSection || TrimSpace(lines[0]) == INTERFACE {
        SectionEndsAtPeer(lines[1..], rest, true);
      } else {
        HeaderIsLater(lines);
        SectionEndsAtPeer(lines[1..], rest, false);
      }
    }
  }

  lemma HeaderIsLater(lines: seq<string>)
    requires HasHeader(lines) && TrimSpace(lines[0]) != INTERFACE
    ensures HasHeader(lines[1..])
  {
    var i :| 0 <= i < |lines| && TrimSpace(lines[i]) == INTERFACE;
    assert TrimSpace(lines[1..][i - 1]) == INTERFACE;
  }

  /** Lines without the header in front of another section's header do not matter. */
  lemma {:induction false} SectionStartsBehind(lines: seq<string>, rest: seq<string>)
    requires NoInterfaceHeader(lines)
    ensures SectionLines(lines + rest, INTERFACE, false) == SectionLines(rest, INTERFACE, false)
  {
    if lines == [] {
      assert lines + rest == rest;
    } else {
      assert (lines + rest)[0] == lines[0] && (lines + rest)[1..] == lines[1..] + rest;
      SectionStartsBehind(lines[1..], rest);
    }
  }

  /** What follows the header of a peer block. */
  function BlockBody(p: PeerParams): string { Unlines(PeerBlockLines(p), '\n') }

  lemma LinesWithPeerBlock(raw: string, p: PeerParams)
    ensures Split(raw + PeerBlock(p), '\n') == Split(raw, '\n') + ["[Peer]"] + Split(BlockBody(p), '\n')
  {
    var block := "[Peer]" + ['\n'] + BlockBody(p);
    SplitCons("[Peer]", BlockBody(p), '\n');
    SplitAtSeparator(raw, block, '\n');
    BlockIsLines(p);
    Associative(raw, ['\n'], block);
    assert Split(raw, '\n') + (["[Peer]"] + Split(BlockBody(p), '\n')) ==
      Split(raw, '\n') + ["[Peer]"] + Split(BlockBody(p), '\n');
  }

  lemma BlockIsLines(p: PeerParams)
    ensures PeerBlock(p) == ['\n'] + ("[Peer]" + ['\n'] + BlockBody(p))
  {
  }

  lemma Associative(a: string, b: string, c: string)
    ensures a + b + c == a + (b + c)
  {
  }

  /** The file names the section somewhere, whatever stands under its header. */
  predicate NamesInterface(raw: string) { HasHeader(Split(raw, '\n')) }

  /** Behind the header of [Interface] a peer block is invisible, whatever its fields hold. */
  lemma PeerBlockInvisible(raw: string, p: PeerParams)
    requires NamesInterface(raw)
    ensures Section(raw + PeerBlock(p), "Interface") == Section(raw, "Interface") && NamesInterface(raw + PeerBlock(p))
  {
    var lines := Split(raw, '\n');
    LinesWithPeerBlock(raw, p);
    SectionEndsAtPeer(lines, Split(BlockBody(p), '\n'), false);
    assert "[" + "Interface" + "]" == INTERFACE;
    var i :| 0 <= i < |lines| && TrimSpace(lines[i]) == INTERFACE;
    assert Split(raw + PeerBlock(p), '\n')[i] == lines[i];
  }

  lemma {:induction false} BlocksInvisible(raw: string, peers: seq<PeerParams>)
    requires NamesInterface(raw)
    ensures Section(WithPeerBlocks(raw, peers), "Interface") == Section(raw, "Interface")
    ensures NamesInterface(WithPeerBlocks(raw, peers))
  {
    if peers != [] {
      var n := |peers| - 1;
      BlocksInvisible(raw, peers[..n]);
      PeerBlockInvisible(WithPeerBlocks(raw, peers[..n]), peers[n]);
    }
  }

  /** Behind the header of [Interface] any number of whole peers leaves the section as it is. */
  lemma PeersInvisible(raw: string, peers: seq<PeerParams>)
    requires NamesInterface(raw) && forall i :: 0 <= i < |peers| ==> Whole(peers[i])
    ensures Section(WithPeers(raw, peers), "Interface") == Section(raw, "Interface")
  {
    WholePeersArrive(raw, peers);
    BlocksInvisible(raw, peers);
  }

  predicate OneLine(p: PeerParams) {
    '\n' !in p.publicKey && '\n' !in p.presharedKey && '\n' !in p.clientIP
  }

  // ---------- blocks through the here-document ----------

  /** No line of the peer's block ends the here-document it travels in. */
  predicate Whole(p: PeerParams) { PEER_END !in Lines(PeerBlock(p), '\n') }

  lemma {:induction false} UnlinesIsTerminated(lines: seq<string>)
    ensures Terminated(Unlines(lines, '\n'), '\n')
  {
    if |lines| > 1 { UnlinesIsTerminated(lines[1..]); }
  }

  lemma BlockIsTerminated(p: PeerParams)
    ensures Terminated(PeerBlock(p), '\n')
  {
    UnlinesIsTerminated(PeerBlockLines(p));
    BlockIsLines(p);
    assert BlockBody(p) != "";
  }

  /** The file gets the block as it is printed, and the server runs nothing else, iff the block is whole. */
  lemma BlockArrivesIff(raw: string, p: PeerParams)
    ensures PeerAppended(raw, p) == raw + PeerBlock(p) <==> Whole(p)
    ensures LeftToRun(PeerBlock(p), PEER_END) == [] <==> Whole(p)
  {
    BlockIsTerminated(p);
    CarriedIff(PeerBlock(p), PEER_END);
    SamePrefix(raw, Carried(PeerBlock(p), PEER_END), PeerBlock(p));
  }

  lemma SamePrefix(raw: string, a: string, b: string)
    ensures raw + a == raw + b <==> a == b
  {
    if raw + a == raw + b {
      assert a == (raw + a)[|raw|..] && b == (raw + b)[|raw|..];
    }
  }

  lemma {:induction false} WholePeersArrive(raw: string, peers: seq<PeerParams>)
    requires forall i :: 0 <= i < |peers| ==> Whole(peers[i])
    ensures WithPeers(raw, peers) == WithPeerBlocks(raw, peers)
  {
    if peers != [] {
      var n := |peers| - 1;
      var before := WithPeers(raw, peers[..n]);
      WholePeersArrive(raw, peers[..n]);
      BlockArrivesIff(before, peers[n]);
      assert WithPeers(raw, peers) == PeerAppended(before, peers[n]);
    }
  }

  lemma FieldIsNoWord(key: string, value: string, word: string)
    requires ' ' !in word
    ensures Field(key, value) != word
  {
    assert Field(key, value)[|key|] == ' ';
  }

  lemma LinesOfBlock(p: PeerParams)
    ensures Lines(PeerBlock(p), '\n') == ["", "[Peer]"] + Lines(BlockBody(p), '\n')
  {
    BlockIsLines(p);
    LinesCons("[Peer]", BlockBody(p), '\n');
    LinesCons("", "[Peer]" + ['\n'] + BlockBody(p), '\n');
  }

  lemma LinesOfOneLineBlock(p: PeerParams)
    requires OneLine(p)
    ensures Lines(PeerBlock(p), '\n') == ["", "[Peer]"] + PeerBlockLines(p)
  {
    LinesOfBlock(p);
    PeerBlockShape(p);
    LinesOfUnlines(PeerBlockLines(p), '\n');
  }

  /** A peer whose fields hold no newline arrives whole. */
  lemma OneLinePeerIsWhole(p: PeerParams)
    requires OneLine(p)
    ensures Whole(p)
  {
    var ips, lines := p.clientIP + "/32", PeerBlockLines(p);
    LinesOfOneLineBlock(p);
    FieldIsNoWord("PublicKey", p.publicKey, PEER_END);
    FieldIsNoWord("PresharedKey", p.presharedKey, PEER_END);
    FieldIsNoWord("AllowedIPs", ips, PEER_END);
    FieldIsNoWord("PersistentKeepalive", Itoa(p.keepalive), PEER_END);
    assert forall i :: 0 <= i < |lines| ==> lines[i] != PEER_END;
  }

  /** A key that holds the delimiter as a line cuts the block off behind its first field. */
  lemma DelimiterInAKeyCutsShort(raw: string, p: PeerParams)
    requires p.publicKey == "x\nPEER"
    ensures PeerAppended(raw, p) == raw + "\n[Peer]\nPublicKey = x\n" && !Whole(p)
    ensures LeftToRun(PeerBlock(p), PEER_END) != []
  {
    var head: seq<string> := ["", "[Peer]", "PublicKey = x"];
    var tail := Lines(Unlines(PeerBlockLines(p)[1..], '\n'), '\n');
    BlockOfDelimiterKey(p);
    BlockIsTerminated(p);
    CutShort(PeerBlock(p), PEER_END, head, tail);
    CutText();
    BlockArrivesIff(raw, p);
  }

  lemma CutText()
    ensures Unlines(["", "[Peer]", "PublicKey = x"], '\n') == "\n[Peer]\nPublicKey = x\n"
  {
    var a, b, c := "", "[Peer]", "PublicKey = x";
    assert [a, b, c][1..] == [b, c] && [b, c][1..] == [c] && [c][1..] == [];
  }

  lemma BlockOfDelimiterKey(p: PeerParams)
    requires p.publicKey == "x\nPEER"
    ensures Lines(PeerBlock(p), '\n') ==
      ["", "[Peer]", "PublicKey = x"] + [PEER_END] + Lines(Unlines(PeerBlockLines(p)[1..], '\n'), '\n')
  {
    var first, rest := "PublicKey = x", Unlines(PeerBlockLines(p)[1..], '\n');
    assert PeerBlockLines(p)[0] == first + ['\n'] + PEER_END;
    assert BlockBody(p) == first + ['\n'] + (PEER_END + ['\n'] + rest);
    LinesOfBlock(p);
    LinesCons(PEER_END, rest, '\n');
    LinesCons(first, PEER_END + ['\n'] + rest, '\n');
    var tail := Lines(rest, '\n');
    assert ["", "[Peer]"] + ([first] + ([PEER_END] + tail)) == ["", "[Peer]", first] + [PEER_END] + tail;
  }

  lemma ItoaIsOneLine(n: int)
    ensures '\n' !in Itoa(n)
  {
  }

  lemma FieldIsOneLine(key: string, value: string)
    requires IsKey(key) && '\n' !in value
    ensures '\n' !in Field(key, value)
  {
  }

  lemma PeerKeys()
    ensures IsKey("PublicKey") && IsKey("PresharedKey") && IsKey("AllowedIPs") && IsKey("PersistentKeepalive")
  {
  }

  lemma PeerBlockShape(p: PeerParams)
    requires OneLine(p)
    ensures NoInterfaceHeader(PeerBlockLines(p) + [""])
    ensures forall l :: l in PeerBlockLines(p) ==> '\n' !in l
  {
    var ips := p.clientIP + "/32";
    ItoaIsOneLine(p.keepalive);
    PeerKeys();
    FieldIsNoHeader("PublicKey", p.publicKey);
    FieldIsNoHeader("PresharedKey", p.presharedKey);
    FieldIsNoHeader("AllowedIPs", ips);
    FieldIsNoHeader("PersistentKeepalive", Itoa(p.keepalive));
    FieldIsOneLine("PublicKey", p.publicKey);
    FieldIsOneLine("PresharedKey", p.presharedKey);
    FieldIsOneLine("AllowedIPs", ips);
    FieldIsOneLine("PersistentKeepalive", Itoa(p.keepalive));
  }

  /** A peer whose fields hold no newline brings no header of [Interface] along. */
  lemma OneLinePeerNamesNothing(p: PeerParams)
    requires OneLine(p)
    ensures !NamesInterface(BlockBody(p))
  {
    PeerBlockShape(p);
    SplitUnlines(PeerBlockLines(p), "", '\n');
    assert BlockBody(p) + "" == BlockBody(p);
  }

  // ---------- files without the section ----------

  lemma {:induction false} PeersAreAppended(raw: string, peers: seq<PeerParams>)
    ensures WithPeerBlocks(raw, peers) == raw + WithPeerBlocks("", peers)
  {
    if peers == [] {
      assert raw + "" == raw;
    } else {
      var n := |peers| - 1;
      PeersAreAppended(raw, peers[..n]);
      Associative(raw, WithPeerBlocks("", peers[..n]), PeerBlock(peers[n]));
    }
  }

  lemma {:induction false} BlocksStart(peers: seq<PeerParams>)
    requires peers != []
    ensures WithPeerBlocks("", peers) != "" && WithPeerBlocks("", peers)[0] == '\n'
  {
    if |peers| > 1 { BlocksStart(peers[..|peers| - 1]); }
  }

  lemma SectionOfNameless(raw: string)
    requires !NamesInterface(raw)
    ensures Section(raw, "Interface") == ""
  {
    NothingWithoutHeader(Split(raw, '\n'));
    assert "[" + "Interface" + "]" == INTERFACE;
  }

  /** A text that does not name the section does not matter in front of a new line. */
  lemma SectionBehind(raw: string, rest: string)
    requires !NamesInterface(raw)
    ensures Section(raw + ['\n'] + rest, "Interface") == Section(rest, "Interface")
  {
    SplitAtSeparator(raw, rest, '\n');
    SectionStartsBehind(Split(raw, '\n'), Split(rest, '\n'));
    assert "[" + "Interface" + "]" == INTERFACE;
  }

  lemma SectionOfBlocks(raw: string, blocks: string)
    requires !NamesInterface(raw) && blocks != "" && blocks[0] == '\n'
    ensures Section(raw + blocks, "Interface") == Section(blocks, "Interface")
  {
    var rest := blocks[1..];
    assert blocks == [] + ['\n'] + rest == ['\n'] + rest;
    Associative(raw, ['\n'], rest);
    SectionBehind(raw, rest);
    SectionBehind("", rest);
  }

  /** To a file that does not name the section, only the blocks matter. */
  lemma PeersAlone(raw: string, peers: seq<PeerParams>)
    requires !NamesInterface(raw)
    ensures Section(WithPeerBlocks(raw, peers), "Interface") == Section(WithPeerBlocks("", peers), "Interface")
  {
    if peers == [] {
      SectionOfNameless(raw);
      SectionOfNameless("");
    } else {
      BlocksStart(peers);
      PeersAreAppended(raw, peers);
      SectionOfBlocks(raw, WithPeerBlocks("", peers));
    }
  }

  lemma {:induction false} SectionFoundOnce(c: ServerConfig, lines: seq<string>)
    ensures ParseLines(c, lines) != Err(NoInterfaceSection)
    decreases lines
  {
    if lines != [] {
      match ParseLine(c, lines[0])
      case Ok(d) => SectionFoundOnce(d, lines[1..]);
      case Err(_) =>
    }
  }

  /**
   Appending any number of whole peers to any file leaves what is parsed, error or not, as it was
   iff the file names the section or the blocks by themselves put no text under its header.
   */
  lemma PeersNeverChangeTheInterface(raw: string, peers: seq<PeerParams>)
    requires forall i :: 0 <= i < |peers| ==> Whole(peers[i])
    ensures ParseInterface(WithPeers(raw, peers)) == ParseInterface(raw) <==>
      NamesInterface(raw) || Section(WithPeers("", peers), "Interface") == ""
  {
    WholePeersArrive(raw, peers);
    WholePeersArrive("", peers);
    BlocksNeverChangeTheInterface(raw, peers);
  }

  lemma BlocksNeverChangeTheInterface(raw: string, peers: seq<PeerParams>)
    ensures ParseInterface(WithPeerBlocks(raw, peers)) == ParseInterface(raw) <==>
      NamesInterface(raw) || Section(WithPeerBlocks("", peers), "Interface") == ""
  {
    if NamesInterface(raw) {
      BlocksInvisible(raw, peers);
    } else {
      PeersAlone(raw, peers);
      SectionOfNameless(raw);
      SectionFoundOnce(EMPTY_CONFIG, Split(Section(WithPeerBlocks("", peers), "Interface"), '\n'));
    }
  }

  lemma NamelessConcat(a: seq<string>, b: seq<string>)
    requires !HasHeader(a) && !HasHeader(b)
    ensures !HasHeader(a + b)
  {
  }

  lemma NamelessPeer(raw: string, p: PeerParams)
    requires !NamesInterface(raw) && !NamesInterface(BlockBody(p))
    ensures !NamesInterface(raw + PeerBlock(p))
  {
    LinesWithPeerBlock(raw, p);
    TrimOfTrimmed("[Peer]");
    NamelessConcat(Split(raw, '\n'), ["[Peer]"]);
    NamelessConcat(Split(raw, '\n') + ["[Peer]"], Split(BlockBody(p), '\n'));
  }

  lemma {:induction false} NamelessPeers(raw: string, peers: seq<PeerParams>)
    requires !NamesInterface(raw) && forall i :: 0 <= i < |peers| ==> !NamesInterface(BlockBody(peers[i]))
    ensures !NamesInterface(WithPeerBlocks(raw, peers))
  {
    if peers != [] {
      var n := |peers| - 1;
      NamelessPeers(raw, peers[..n]);
      NamelessPeer(WithPeerBlocks(raw, peers[..n]), peers[n]);
    }
  }

  /** Whatever the file, whole peers no line of which is the header change nothing. */
  lemma HeaderlessPeersChangeNothing(raw: string, peers: seq<PeerParams>)
    requires forall i :: 0 <= i < |peers| ==> Whole(peers[i]) && !NamesInterface(BlockBody(peers[i]))
    ensures ParseInterface(WithPeers(raw, peers)) == ParseInterface(raw)
  {
    PeersNeverChangeTheInterface(raw, peers);
    WholePeersArrive("", peers);
    NamelessPeers("", peers);
    SectionOfNameless(WithPeers("", peers));
  }

  // ---------- fields ----------

  lemma {:induction false} WordLengthOfKey(key: string, rest: string)
    requires forall i :: 0 <= i < |key| ==> IsWordChar(key[i])
    requires rest == "" || !IsWordChar(rest[0])
    ensures WordLength(key + rest) == |key|
  {
    if key == "" {
      assert key + rest == rest;
    } else {
      assert (key + rest)[1..] == key[1..] + rest;
      WordLengthOfKey(key[1..], rest);
    }
  }

  lemma SplitField(key: string, x: string)
    requires IsKey(key)
    ensures SplitKeyValue(key + " =" + x) == Some((key, TrimSpace(x)))
  {
    var line, rest := key + " =" + x, " =" + x;
    assert line == key + rest;
    WordCharIsNoSpace(key[0]);
    WordLengthOfKey(key, rest);
    assert line[|key|..] == rest && line[..|key|] == key;
    var value := "=" + x;
    assert rest[1..] == value && value[1..] == x;
    assert SkipRegexSpace(value) == value;
    assert SkipRegexSpace(rest) == value;
  }

  lemma ParseField(c: ServerConfig, key: string, value: string)
    requires IsKey(key)
    ensures ParseLine(c, Field(key, value)) == Assign(c, key, TrimSpace(" " + value))
  {
    var x := " " + value;
    assert Field(key, value) == key + " =" + x;
    TrimField(key, x);
    SplitField(key, TrimRight(x));
    TrimRightTwice(x);
    WordCharIsNoSpace(key[0]);
    assert (key + " =" + TrimRight(x))[0] == key[0];
  }

  lemma ParseTrimmedField(c: ServerConfig, key: string, value: string)
    requires IsKey(key) && Trimmed(value)
    ensures ParseLine(c, Field(key, value)) == Assign(c, key, value)
  {
    ParseField(c, key, value);
    TrimOfSpaced(value);
  }

  predicate IsInt64(n: int) { MIN_INT64 <= n <= MAX_INT64 }

  lemma ParseNumber(c: ServerConfig, key: string, n: int)
    requires IsKey(key) && IsInt64(n)
    ensures ParseLine(c, Field(key, Itoa(n))) == Assign(c, key, Itoa(n))
    ensures Atoi(Itoa(n)) == AtoiResult(n, None)
  {
    AtoiOfItoa(n);
    ParseTrimmedField(c, key, Itoa(n));
  }

  // ---------- every line ----------

  predicate AllRegexSpace(s: string) { forall i :: 0 <= i < |s| ==> IsRegexSpace(s[i]) }

  lemma {:induction false} SkippedSpace(s: string) returns (a: string)
    ensures s == a + SkipRegexSpace(s) && AllRegexSpace(a)
  {
    if s != "" && IsRegexSpace(s[0]) {
      a := SkippedSpace(s[1..]);
      a := [s[0]] + a;
    } else {
      a := "";
    }
  }

  lemma {:induction false} SkipAll(a: string, rest: string)
    requires AllRegexSpace(a) && (rest == "" || !IsRegexSpace(rest[0]))
    ensures SkipRegexSpace(a + rest) == rest
  {
    if a == "" {
      assert a + rest == rest;
    } else {
      assert (a + rest)[1..] == a[1..] + rest;
      SkipAll(a[1..], rest);
    }
  }

  lemma {:induction false} WordIsKey(s: string)
    ensures forall i :: 0 <= i < WordLength(s) ==> IsWordChar(s[i])
  {
    if s != "" && IsWordChar(s[0]) { WordIsKey(s[1..]); }
  }

  /** The regular expression of the parser, group by group. */
  predicate KeyValueShape(line: string, a: string, key: string, b: string, x: string) {
    AllRegexSpace(a) && IsKey(key) && AllRegexSpace(b) && line == a + key + (b + ("=" + x))
  }

  lemma ShapeIsSplit(line: string, a: string, key: string, b: string, x: string)
    requires KeyValueShape(line, a, key, b, x)
    ensures SplitKeyValue(line) == Some((key, TrimSpace(x)))
  {
    var rest, value := b + ("=" + x), "=" + x;
    assert line == a + (key + rest);
    WordCharIsNoSpace(key[0]);
    SkipAll(a, key + rest);
    SkipAll(b, value);
    if b == "" { assert rest == value; } else { assert rest[0] == b[0]; }
    SpaceIsNoWordChar(rest[0]);
    WordLengthOfKey(key, rest);
    assert (key + rest)[|key|..] == rest && (key + rest)[..|key|] == key && value[1..] == x;
  }

  lemma SpaceIsNoWordChar(c: char)
    ensures IsRegexSpace(c) || c == '=' ==> !IsWordChar(c)
  {
  }

  lemma SplitIsShape(line: string) returns (a: string, b: string, x: string)
    requires SplitKeyValue(line).Some?
    ensures KeyValueShape(line, a, SplitKeyValue(line).value.0, b, x)
    ensures SplitKeyValue(line).value.1 == TrimSpace(x)
  {
    var s := SkipRegexSpace(line);
    var n := WordLength(s);
    a := SkippedSpace(line);
    b := SkippedSpace(s[n..]);
    x := SkipRegexSpace(s[n..])[1..];
    WordIsKey(s);
    assert SkipRegexSpace(s[n..]) == "=" + x;
    assert s == s[..n] + s[n..];
    assert a + s[..n] + (b + ("=" + x)) == a + s;
  }

  /**
   A line is split into a key and a value iff it is white space, a word, white space, an equals
   sign and a text that trims to the value.
   */
  lemma SplitIff(line: string, key: string, value: string)
    ensures SplitKeyValue(line) == Some((key, value)) <==>
      exists a, b, x :: KeyValueShape(line, a, key, b, x) && value == TrimSpace(x)
  {
    if SplitKeyValue(line) == Some((key, value)) {
      var a, b, x := SplitIsShape(line);
    }
    if a, b, x :| KeyValueShape(line, a, key, b, x) && value == TrimSpace(x) { ShapeIsSplit(line, a, key, b, x); }
  }

  /** A line of such a key sets its value to what Atoi returns, with an error or without. */
  lemma SlotIsAssigned(c: ServerConfig, s: Slot, v: string)
    requires Trimmed(v)
    ensures ParseLine(c, Field(NameOf(s), v)) == Ok(c.(obf := Set(c.obf, s, Atoi(v).value)))
  {
    SlotOfName(s);
    ParseTrimmedField(c, NameOf(s), v);
  }

  /** Each key names its own value. */
  lemma EachKeyItsValue(o: Obfuscation, n: int)
    ensures NameOf(Jc) == "Jc" && Set(o, Jc, n) == o.(jc := n)
    ensures NameOf(Jmin) == "Jmin" && Set(o, Jmin, n) == o.(jmin := n)
    ensures NameOf(Jmax) == "Jmax" && Set(o, Jmax, n) == o.(jmax := n)
    ensures NameOf(S1) == "S1" && Set(o, S1, n) == o.(s1 := n)
    ensures NameOf(S2) == "S2" && Set(o, S2, n) == o.(s2 := n)
    ensures NameOf(S3) == "S3" && Set(o, S3, n) == o.(s3 := n)
    ensures NameOf(S4) == "S4" && Set(o, S4, n) == o.(s4 := n)
    ensures NameOf(H1) == "H1" && Set(o, H1, n) == o.(h1 := n)
    ensures NameOf(H2) == "H2" && Set(o, H2, n) == o.(h2 := n)
    ensures NameOf(H3) == "H3" && Set(o, H3, n) == o.(h3 := n)
    ensures NameOf(H4) == "H4" && Set(o, H4, n) == o.(h4 := n)
    ensures NameOf(I1) == "I1" && Set(o, I1, n) == o.(i1 := n)
    ensures NameOf(I2) == "I2" && Set(o, I2, n) == o.(i2 := n)
    ensures NameOf(I3) == "I3" && Set(o, I3, n) == o.(i3 := n)
    ensures NameOf(I4) == "I4" && Set(o, I4, n) == o.(i4 := n)
    ensures NameOf(I5) == "I5" && Set(o, I5, n) == o.(i5 := n)
  {
  }

  /** The address is taken as text; a port that does not parse is an error, unlike any other value. */
  lemma AddressAndPort(c: ServerConfig, v: string)
    requires Trimmed(v)
    ensures ParseLine(c, Field("Address", v)) == Ok(c.(address := v))
    ensures ParseLine(c, Field("ListenPort", v)) ==
      match Atoi(v).error
      case None => Ok(c.(listenPort := Atoi(v).value))
      case Some(e) => Err(BadListenPort(e))
  {
    HeadKeys();
    ParseTrimmedField(c, "Address", v);
    ParseTrimmedField(c, "ListenPort", v);
  }

  const KNOWN_KEYS := {"Address", "ListenPort", "Jc", "Jmin", "Jmax", "S1", "S2", "S3", "S4",
    "H1", "H2", "H3", "H4", "I1", "I2", "I3", "I4", "I5"}

  /** Blank lines, comments, lines that are no key and value, and other keys change nothing. */
  lemma IgnoredLines(c: ServerConfig, line: string)
    requires var t := TrimSpace(line);
      t == "" || t[0] == '#' || SplitKeyValue(t) == None || SplitKeyValue(t).value.0 !in KNOWN_KEYS
    ensures ParseLine(c, line) == Ok(c)
  {
  }

  // ---------- every section ----------

  /** No section header, by its first and last character. */
  predicate IsContent(line: string) {
    var t := TrimSpace(line);
    t == "" || t[0] != '[' || t[|t| - 1] != ']'
  }

  lemma {:induction false} ContentIsKept(a: seq<string>, rest: seq<string>)
    requires forall i :: 0 <= i < |a| ==> IsContent(a[i])
    ensures SectionLines(a + rest, INTERFACE, true) == a + SectionLines(rest, INTERFACE, true)
  {
    if a == [] {
      assert a + rest == rest;
    } else {
      assert (a + rest)[0] == a[0] && (a + rest)[1..] == a[1..] + rest;
      assert IsContent(a[0]) && TrimSpace(a[0]) != INTERFACE;
      ContentIsKept(a[1..], rest);
    }
  }

  /**
   The section is what stands behind its first header, up to the next header of another section;
   its own header repeated goes on with it.
   */
  lemma SectionIsBetweenHeaders(
    before: seq<string>, h: string, a: seq<string>, again: string, b: seq<string>, other: string, rest: seq<string>)
    requires NoInterfaceHeader(before) && TrimSpace(h) == INTERFACE && TrimSpace(again) == INTERFACE
    requires forall i :: 0 <= i < |a| ==> IsContent(a[i])
    requires forall i :: 0 <= i < |b| ==> IsContent(b[i])
    requires TrimSpace(other) != INTERFACE && !IsContent(other)
    ensures SectionLines(before + ([h] + (a + ([again] + (b + ([other] + rest))))), INTERFACE, false) == a + b
  {
    var tail := [other] + rest;
    var second := [again] + (b + tail);
    SectionStartsBehind(before, [h] + (a + second));
    OwnHeaderGoesOn(h, a + second, false);
    ContentIsKept(a, second);
    OwnHeaderGoesOn(again, b + tail, true);
    ContentIsKept(b, tail);
    OtherHeaderEnds(other, rest);
    assert b + [] == b;
  }

  lemma OwnHeaderGoesOn(h: string, rest: seq<string>, inSection: bool)
    requires TrimSpace(h) == INTERFACE
    ensures SectionLines([h] + rest, INTERFACE, inSection) == SectionLines(rest, INTERFACE, true)
  {
    assert ([h] + rest)[0] == h && ([h] + rest)[1..] == rest;
  }

  lemma OtherHeaderEnds(other: string, rest: seq<string>)
    requires TrimSpace(other) != INTERFACE && !IsContent(other)
    ensures SectionLines([other] + rest, INTERFACE, true) == []
  {
    assert ([other] + rest)[0] == other;
  }

  // ---------- a peer block read back ----------

  lemma FieldIsSplit(key: string, value: string)
    requires IsKey(key)
    ensures SplitKeyValue(Field(key, value)) == Some((key, TrimSpace(value)))
  {
    assert Field(key, value) == key + " =" + (" " + value);
    SplitField(key, " " + value);
    TrimBehindSpace(value);
  }

  /** The lines of a one-line peer's block give back its values under their keys. */
  lemma PeerBlockReadBack(p: PeerParams)
    requires OneLine(p)
    ensures var l := Lines(PeerBlock(p), '\n');
      && |l| == 6 && l[0] == "" && l[1] == "[Peer]"
      && SplitKeyValue(l[2]) == Some(("PublicKey", TrimSpace(p.publicKey)))
      && SplitKeyValue(l[3]) == Some(("PresharedKey", TrimSpace(p.presharedKey)))
      && SplitKeyValue(l[4]) == Some(("AllowedIPs", TrimSpace(p.clientIP + "/32")))
      && SplitKeyValue(l[5]) == Some(("PersistentKeepalive", TrimSpace(Itoa(p.keepalive))))
  {
    LinesOfOneLineBlock(p);
    PeerKeys();
    FieldIsSplit("PublicKey", p.publicKey);
    FieldIsSplit("PresharedKey", p.presharedKey);
    FieldIsSplit("AllowedIPs", p.clientIP + "/32");
    FieldIsSplit("PersistentKeepalive", Itoa(p.keepalive));
  }

  // ---------- the round trip ----------

  /** A one-line key and values that a Go int can hold. */
  predicate Printable(c: InitConfig) {
    && '\n' !in c.privateKey
    && IsInt64(c.listenPort)
    && forall s :: s in PRINTED ==> IsInt64(Get(c.obf, s))
  }

  function Continue(r: Result<ServerConfig, ConfError>, lines: seq<string>): Result<ServerConfig, ConfError> {
    if r.Ok? then ParseLines(r.value, lines) else r
  }

  lemma ParseCons(c: ServerConfig, line: string, rest: seq<string>)
    ensures ParseLines(c, [line] + rest) == Continue(ParseLine(c, line), rest)
  {
  }

  lemma {:induction false} ParseAppend(c: ServerConfig, a: seq<string>, b: seq<string>)
    ensures ParseLines(c, a + b) == Continue(ParseLines(c, a), b)
    decreases a
  {
    if a == [] {
      assert a + b == b;
    } else {
      assert (a + b)[1..] == a[1..] + b;
      match ParseLine(c, a[0])
      case Ok(d) => ParseAppend(d, a[1..], b);
      case Err(_) =>
    }
  }

  lemma SlotOfName(s: Slot)
    ensures SlotOf(NameOf(s)) == Some(s)
  {
  }

  lemma ParseSlot(c: ServerConfig, s: Slot, n: int)
    requires IsInt64(n)
    ensures ParseLine(c, Field(NameOf(s), Itoa(n))) == Ok(c.(obf := Set(c.obf, s, n)))
  {
    SlotOfName(s);
    ParseNumber(c, NameOf(s), n);
  }

  /** Copies these values of one set into another, in order. */
  function CopyAll(into: Obfuscation, o: Obfuscation, slots: seq<Slot>): Obfuscation
    decreases slots
  {
    if slots == [] then into else CopyAll(Set(into, slots[0], Get(o, slots[0])), o, slots[1..])
  }

  lemma {:induction false} ParseObfuscation(c: ServerConfig, o: Obfuscation, slots: seq<Slot>)
    requires forall s :: s in slots ==> IsInt64(Get(o, s))
    ensures ParseLines(c, ObfuscationLines(o, slots)) == Ok(c.(obf := CopyAll(c.obf, o, slots)))
    decreases slots
  {
    if slots != [] {
      ParseSlot(c, slots[0], Get(o, slots[0]));
      var next := c.(obf := Set(c.obf, slots[0], Get(o, slots[0])));
      ParseCons(c, ObfuscationLines(o, slots)[0], ObfuscationLines(o, slots[1..]));
      ParseObfuscation(next, o, slots[1..]);
    }
  }

  lemma CopyPrinted(o: Obfuscation)
    ensures CopyAll(NO_OBFUSCATION, o, PRINTED) == o.(i1 := 0, i2 := 0, i3 := 0, i4 := 0, i5 := 0)
  {
  }

  function HeadLines(c: InitConfig): seq<string> {
    [Field("PrivateKey", c.privateKey), Field("Address", ServerIPFromSubnet(c.subnet) + "/24"),
     Field("ListenPort", Itoa(c.listenPort)), ""]
  }

  lemma ParseFour(c: ServerConfig, c1: ServerConfig, c2: ServerConfig, c3: ServerConfig, lines: seq<string>)
    requires |lines| == 4
    requires ParseLine(c, lines[0]) == Ok(c1) && ParseLine(c1, lines[1]) == Ok(c2) && ParseLine(c2, lines[2]) == Ok(c3)
    ensures ParseLines(c, lines) == ParseLine(c3, lines[3])
  {
    ParseCons(c, lines[0], lines[1..]);
    ParseCons(c1, lines[1], lines[2..]);
    ParseCons(c2, lines[2], lines[3..]);
    ParseCons(c3, lines[3], []);
    assert [lines[0]] + lines[1..] == lines && [lines[1]] + lines[2..] == lines[1..];
    assert [lines[2]] + lines[3..] == lines[2..] && [lines[3]] + [] == lines[3..];
  }

  lemma PrivateKeyIsSkipped(c: ServerConfig, value: string)
    ensures ParseLine(c, Field("PrivateKey", value)) == Ok(c)
  {
    ParseField(c, "PrivateKey", value);
  }

  lemma ParseAddress(c: ServerConfig, net: IPv4, address: string)
    requires address == ServerIPFromSubnet(Dotted3(net) + ".0/24") + "/24"
    ensures ParseLine(c, Field("Address", address)) == Ok(c.(address := address))
    ensures '\n' !in address
  {
    ServerIPOfSubnet(net);
    FormatShape(net.(d := 1));
    assert address[0] == Format(net.(d := 1))[0];
    ParseTrimmedField(c, "Address", address);
  }

  lemma ParsePort(c: ServerConfig, n: int)
    requires IsInt64(n)
    ensures ParseLine(c, Field("ListenPort", Itoa(n))) == Ok(c.(listenPort := n))
  {
    ParseNumber(c, "ListenPort", n);
  }

  /** The private key line is skipped whatever the key is. */
  lemma ParseHead(c: InitConfig, net: IPv4)
    requires Printable(c) && c.subnet == Dotted3(net) + ".0/24"
    ensures ParseLines(EMPTY_CONFIG, HeadLines(c)) ==
      Ok(ServerConfig(ServerIPFromSubnet(c.subnet) + "/24", c.listenPort, NO_OBFUSCATION))
  {
    var address := ServerIPFromSubnet(c.subnet) + "/24";
    var c1 := EMPTY_CONFIG.(address := address);
    var c2 := c1.(listenPort := c.listenPort);
    PrivateKeyIsSkipped(EMPTY_CONFIG, c.privateKey);
    ParseAddress(EMPTY_CONFIG, net, address);
    ParsePort(c1, c.listenPort);
    ParseFour(EMPTY_CONFIG, EMPTY_CONFIG, c1, c2, HeadLines(c));
    BlankLineParses(c2);
  }

  function Recovered(c: InitConfig): ServerConfig {
    ServerConfig(ServerIPFromSubnet(c.subnet) + "/24", c.listenPort,
      c.obf.(i1 := 0, i2 := 0, i3 := 0, i4 := 0, i5 := 0))
  }

  lemma ParseInterfaceLines(c: InitConfig, net: IPv4)
    requires Printable(c) && c.subnet == Dotted3(net) + ".0/24"
    ensures ParseLines(EMPTY_CONFIG, InterfaceLines(c)) == Ok(Recovered(c))
  {
    var c1 := ServerConfig(ServerIPFromSubnet(c.subnet) + "/24", c.listenPort, NO_OBFUSCATION);
    var tail := ObfuscationLines(c.obf, PRINTED);
    ParseHead(c, net);
    ParseObfuscation(c1, c.obf, PRINTED);
    CopyPrinted(c.obf);
    assert InterfaceLines(c) == HeadLines(c) + tail;
    ParseAppend(EMPTY_CONFIG, HeadLines(c), tail);
  }

  /** Lines that are no headers all belong to the section they stand in. */
  lemma {:induction false} SectionHasAll(lines: seq<string>)
    requires AllBody(lines)
    ensures SectionLines(lines, INTERFACE, true) == lines
  {
    if lines != [] { SectionHasAll(lines[1..]); }
  }

  lemma BlankLineContinues(r: Result<ServerConfig, ConfError>)
    ensures Continue(r, [""]) == r
  {
    if r.Ok? {
      BlankLineParses(r.value);
      ParseCons(r.value, "", []);
      assert [""] + [] == [""];
    }
  }

  lemma LastNewlineParses(c: ServerConfig, t: string)
    ensures ParseLines(c, Split(t + ['\n'], '\n')) == ParseLines(c, Split(t, '\n'))
  {
    SplitAtSeparator(t, "", '\n');
    assert t + ['\n'] + "" == t + ['\n'];
    ParseAppend(c, Split(t, '\n'), [""]);
    BlankLineContinues(ParseLines(c, Split(t, '\n')));
  }

  /** Newlines at the end of a section never matter to the parser. */
  lemma {:induction false} TrimmedNewlinesParse(c: ServerConfig, s: string)
    ensures ParseLines(c, Split(TrimNewlines(s), '\n')) == ParseLines(c, Split(s, '\n'))
  {
    if s != "" && s[|s| - 1] == '\n' {
      var t := s[..|s| - 1];
      TrimmedNewlinesParse(c, t);
      LastNewlineParses(c, t);
      assert s == t + ['\n'];
    }
  }

  lemma {:induction false} TrimNewlinesKeepsText(s: string)
    requires s != "" && s[0] != '\n'
    ensures TrimNewlines(s) != ""
  {
    if s[|s| - 1] == '\n' { TrimNewlinesKeepsText(s[..|s| - 1]); }
  }

  lemma BlankLineParses(c: ServerConfig)
    ensures ParseLine(c, "") == Ok(c)
  {
  }

  predicate BodyLine(l: string) {
    '\n' !in l && l != CONF_END && TrimSpace(l) != INTERFACE && !IsHeader(TrimSpace(l))
  }

  predicate AllBody(lines: seq<string>) { forall i :: 0 <= i < |lines| ==> BodyLine(lines[i]) }

  lemma FieldIsBodyLine(key: string, value: string)
    requires IsKey(key) && '\n' !in value
    ensures BodyLine(Field(key, value))
  {
    FieldIsNoHeader(key, value);
    FieldIsOneLine(key, value);
    FieldIsNoWord(key, value, CONF_END);
  }

  lemma {:induction false} ObfuscationLinesShape(o: Obfuscation, slots: seq<Slot>)
    ensures AllBody(ObfuscationLines(o, slots))
  {
    if slots != [] {
      ItoaIsOneLine(Get(o, slots[0]));
      FieldIsBodyLine(NameOf(slots[0]), Itoa(Get(o, slots[0])));
      ObfuscationLinesShape(o, slots[1..]);
    }
  }

  lemma FourBodyLines(a: string, b: string, c: string, d: string)
    requires BodyLine(a) && BodyLine(b) && BodyLine(c) && BodyLine(d)
    ensures AllBody([a, b, c, d])
  {
  }

  lemma HeadLinesShape(c: InitConfig, net: IPv4)
    requires Printable(c) && c.subnet == Dotted3(net) + ".0/24"
    ensures AllBody(HeadLines(c))
  {
    var address := ServerIPFromSubnet(c.subnet) + "/24";
    ParseAddress(EMPTY_CONFIG, net, address);
    ItoaIsOneLine(c.listenPort);
    HeadKeys();
    FieldIsBodyLine("PrivateKey", c.privateKey);
    FieldIsBodyLine("Address", address);
    FieldIsBodyLine("ListenPort", Itoa(c.listenPort));
    BlankIsBodyLine();
    FourBodyLines(
      Field("PrivateKey", c.privateKey), Field("Address", address), Field("ListenPort", Itoa(c.listenPort)), "");
  }

  lemma HeadKeys()
    ensures IsKey("PrivateKey") && IsKey("Address") && IsKey("ListenPort")
  {
  }

  lemma BlankIsBodyLine()
    ensures BodyLine("")
  {
  }

  lemma AllBodyAppend(a: seq<string>, b: seq<string>)
    requires AllBody(a) && AllBody(b)
    ensures AllBody(a + b)
  {
  }

  lemma InterfaceLinesShape(c: InitConfig, net: IPv4)
    requires Printable(c) && c.subnet == Dotted3(net) + ".0/24"
    ensures AllBody(InterfaceLines(c)) && AllBody(InterfaceLines(c) + ["", ""])
  {
    var slots := ObfuscationLines(c.obf, PRINTED);
    HeadLinesShape(c, net);
    ObfuscationLinesShape(c.obf, PRINTED);
    assert InterfaceLines(c) == HeadLines(c) + slots;
    AllBodyAppend(HeadLines(c), slots);
    BlankIsBodyLine();
    AllBodyAppend(InterfaceLines(c), ["", ""]);
  }

  lemma BlankEnd()
    ensures Split("\n", '\n') == ["", ""]
  {
  }

  lemma ConfLinesShape(c: InitConfig, net: IPv4)
    requires Printable(c) && c.subnet == Dotted3(net) + ".0/24"
    ensures forall i :: 0 <= i < |ConfLines(c)| ==> '\n' !in ConfLines(c)[i] && ConfLines(c)[i] != CONF_END
  {
    InterfaceLinesShape(c, net);
    assert forall i :: 0 < i < |ConfLines(c)| ==> ConfLines(c)[i] == InterfaceLines(c)[i - 1];
  }

  /** The provisioner's here-document carries its text: no line of it is the delimiter. */
  lemma RenderedFileIsText(c: InitConfig, net: IPv4)
    requires Printable(c) && c.subnet == Dotted3(net) + ".0/24"
    ensures RenderedFile(c) == RenderedText(c)
  {
    ConfLinesShape(c, net);
    var lines := ConfLines(c) + [""];
    LinesOfUnlines(lines, '\n');
    UnlinesAppend(ConfLines(c), [""], '\n');
    assert Unlines([""], '\n') == "\n";
    CarriedIff(RenderedText(c), CONF_END);
  }

  lemma RenderedLines(c: InitConfig, net: IPv4)
    requires Printable(c) && c.subnet == Dotted3(net) + ".0/24"
    ensures Split(RenderedFile(c), '\n') == [INTERFACE] + (InterfaceLines(c) + ["", ""])
  {
    RenderedFileIsText(c, net);
    ConfLinesShape(c, net);
    BlankEnd();
    SplitUnlines(ConfLines(c), "\n", '\n');
    assert ConfLines(c) + ["", ""] == [INTERFACE] + (InterfaceLines(c) + ["", ""]);
  }

  lemma RenderedSection(c: InitConfig, net: IPv4)
    requires Printable(c) && c.subnet == Dotted3(net) + ".0/24"
    ensures Section(RenderedFile(c), "Interface") == TrimNewlines(Unlines(InterfaceLines(c) + ["", ""], '\n'))
  {
    RenderedLines(c, net);
    InterfaceLinesShape(c, net);
    SectionHasAll(InterfaceLines(c) + ["", ""]);
    SectionOfHeader(InterfaceLines(c) + ["", ""]);
    assert "[" + "Interface" + "]" == INTERFACE;
  }

  lemma SectionOfHeader(lines: seq<string>)
    ensures SectionLines([INTERFACE] + lines, INTERFACE, false) == SectionLines(lines, INTERFACE, true)
  {
  }

  /** Body lines, blank ones behind them, written and split again, parse as the lines do. */
  lemma ParseOfText(c: ServerConfig, lines: seq<string>)
    requires AllBody(lines + ["", ""])
    ensures var text := TrimNewlines(Unlines(lines + ["", ""], '\n'));
      ParseLines(c, Split(text, '\n')) == Continue(ParseLines(c, lines), ["", "", ""])
  {
    var all := lines + ["", ""];
    var text := Unlines(all, '\n');
    TrimmedNewlinesParse(c, text);
    SplitUnlines(all, "", '\n');
    assert text + "" == text && all + [""] == lines + ["", "", ""];
    ParseAppend(c, lines, ["", "", ""]);
  }

  lemma SectionIsNotEmpty(c: InitConfig)
    ensures TrimNewlines(Unlines(InterfaceLines(c) + ["", ""], '\n')) != ""
  {
    var all := InterfaceLines(c) + ["", ""];
    assert all[0] == Field("PrivateKey", c.privateKey) && all[0][0] == 'P';
    TrimNewlinesKeepsText(Unlines(all, '\n'));
  }

  /**
   Parsing the file the provisioner wrote gives back the listen port, the server address and
   every obfuscation value that is printed.
   */
  lemma ConfRoundTrip(c: InitConfig, net: IPv4)
    requires Printable(c) && c.subnet == Dotted3(net) + ".0/24"
    ensures ParseInterface(RenderedFile(c)) == Ok(Recovered(c))
  {
    RenderedSection(c, net);
    SectionIsNotEmpty(c);
    InterfaceLinesShape(c, net);
    ParseOfText(EMPTY_CONFIG, InterfaceLines(c));
    ParseInterfaceLines(c, net);
    BlankLinesParse(Recovered(c));
  }

  lemma BlankLinesParse(c: ServerConfig)
    ensures ParseLines(c, ["", "", ""]) == Ok(c)
  {
  }

  /** All obfuscation values come back iff the five that are never printed are zero. */
  lemma ObfuscationRecoveredIff(c: InitConfig, net: IPv4)
    requires Printable(c) && c.subnet == Dotted3(net) + ".0/24"
    ensures ParseInterface(RenderedFile(c)).Ok? && (ParseInterface(RenderedFile(c)).value.obf == c.obf <==>
      c.obf.i1 == 0 && c.obf.i2 == 0 && c.obf.i3 == 0 && c.obf.i4 == 0 && c.obf.i5 == 0)
  {
    ConfRoundTrip(c, net);
  }

  /** A key of a newline and the header makes a file without the section one that has it. */
  lemma HeaderInAKeyIsParsed(raw: string, p: PeerParams)
    requires !NamesInterface(raw) && p.publicKey == "\n[Interface]" && OneLine(p.(publicKey := ""))
    ensures ParseInterface(PeerAppended(raw, p)) != ParseInterface(raw)
  {
    var tail := PeerBlockLines(p.(publicKey := ""))[1..] + [""];
    SectionOfHeaderKey(p);
    assert tail[0][0] == 'P';
    TrimNewlinesKeepsText(Unlines(tail, '\n'));
    BlocksNeverChangeTheInterface(raw, [p]);
    assert WithPeerBlocks(raw, [p]) == WithPeerBlocks(raw, []) + PeerBlock(p);
    HeaderKeyIsWhole(p);
    BlockArrivesIff(raw, p);
  }

  lemma HeaderKeyIsWhole(p: PeerParams)
    requires p.publicKey == "\n[Interface]" && OneLine(p.(publicKey := ""))
    ensures Whole(p)
  {
    var q := p.(publicKey := "");
    var lines := [Field("PublicKey", ""), INTERFACE] + PeerBlockLines(q)[1..];
    BlockOfHeaderKey(p);
    AppendThenDrop(lines, [""]);
    assert Lines(BlockBody(p), '\n') == lines;
    LinesOfBlock(p);
    OneLinePeerIsWhole(q);
    LinesOfOneLineBlock(q);
    assert forall l :: l in lines ==> l == INTERFACE || l in Lines(PeerBlock(q), '\n');
  }

  lemma LinesOfHeaderKey(p: PeerParams)
    requires p.publicKey == "\n[Interface]" && OneLine(p.(publicKey := ""))
    ensures Split(WithPeerBlocks("", [p]), '\n') == ["", "[Peer]", Field("PublicKey", "")] +
      ([INTERFACE] + (PeerBlockLines(p.(publicKey := ""))[1..] + [""]))
  {
    BlockOfHeaderKey(p);
    LinesWithPeerBlock("", p);
    assert WithPeerBlocks("", [p]) == WithPeerBlocks("", []) + PeerBlock(p);
  }

  lemma SectionOfHeaderKey(p: PeerParams)
    requires p.publicKey == "\n[Interface]" && OneLine(p.(publicKey := ""))
    ensures Section(WithPeerBlocks("", [p]), "Interface") ==
      TrimNewlines(Unlines(PeerBlockLines(p.(publicKey := ""))[1..] + [""], '\n'))
  {
    var tail := PeerBlockLines(p.(publicKey := ""))[1..] + [""];
    LinesOfHeaderKey(p);
    HeadOfBlock();
    SectionStartsBehind(["", "[Peer]", Field("PublicKey", "")], [INTERFACE] + tail);
    SectionOfHeader(tail);
    TailIsBody(p.(publicKey := ""));
    SectionHasAll(tail);
    assert "[" + "Interface" + "]" == INTERFACE;
  }

  lemma HeadOfBlock()
    ensures NoInterfaceHeader(["", "[Peer]", Field("PublicKey", "")])
  {
    PeerKeys();
    FieldIsNoHeader("PublicKey", "");
    TrimOfTrimmed("[Peer]");
  }

  lemma TailIsBody(q: PeerParams)
    requires OneLine(q)
    ensures AllBody(PeerBlockLines(q)[1..] + [""])
  {
    PeerKeys();
    ItoaIsOneLine(q.keepalive);
    FieldIsBodyLine("PresharedKey", q.presharedKey);
    FieldIsBodyLine("AllowedIPs", q.clientIP + "/32");
    FieldIsBodyLine("PersistentKeepalive", Itoa(q.keepalive));
    BlankIsBodyLine();
  }

  lemma BlockOfHeaderKey(p: PeerParams)
    requires p.publicKey == "\n[Interface]" && OneLine(p.(publicKey := ""))
    ensures Split(BlockBody(p), '\n') ==
      [Field("PublicKey", ""), INTERFACE] + PeerBlockLines(p.(publicKey := ""))[1..] + [""]
  {
    var q := p.(publicKey := "");
    var tail := PeerBlockLines(q)[1..];
    var first := Field("PublicKey", "");
    PeerBlockShape(q);
    assert PeerBlockLines(p) == [Field("PublicKey", p.publicKey)] + tail;
    assert Field("PublicKey", p.publicKey) == first + ['\n'] + INTERFACE;
    SplitUnlines([first, INTERFACE] + tail, "", '\n');
    assert PeerBlockLines(q)[0] == first;
    UnlinesOfTwo(first, INTERFACE, tail);
    assert BlockBody(p) + "" == BlockBody(p);
  }

  lemma UnlinesOfTwo(a: string, b: string, tail: seq<string>)
    ensures Unlines([a, b] + tail, '\n') == a + ['\n'] + b + ['\n'] + Unlines(tail, '\n')
    ensures Unlines([a + ['\n'] + b] + tail, '\n') == a + ['\n'] + b + ['\n'] + Unlines(tail, '\n')
  {
    assert ([a, b] + tail)[1..] == [b] + tail && ([b] + tail)[1..] == tail;
    assert ([a + ['\n'] + b] + tail)[1..] == tail;
  }

  /** The private key, which the parser passes over, is printed in the first line of the section. */
  lemma PrivateKeyIsPrinted(c: InitConfig, net: IPv4)
    requires Printable(c) && c.subnet == Dotted3(net) + ".0/24"
    ensures var l := Split(RenderedFile(c), '\n');
      |l| > 1 && l[0] == "[Interface]" && SplitKeyValue(l[1]) == Some(("PrivateKey", TrimSpace(c.privateKey)))
  {
    RenderedLines(c, net);
    HeadKeys();
    FieldIsSplit("PrivateKey", c.privateKey);
  }

  lemma RenderedFileNamesInterface(c: InitConfig, net: IPv4)
    requires Printable(c) && c.subnet == Dotted3(net) + ".0/24"
    ensures NamesInterface(RenderedFile(c))
  {
    RenderedLines(c, net);
    TrimOfTrimmed(INTERFACE);
    assert Split(RenderedFile(c), '\n')[0] == INTERFACE;
  }

  /**
   The whole path: provision a /24, append any whole peers, fetch and parse the file; the subnet
   and the server address derived from it are the ones that were provisioned.
   */
  lemma ProvisionThenDerive(c: InitConfig, net: IPv4, peers: seq<PeerParams>)
    requires Valid(net) && Printable(c) && c.subnet == Dotted3(net) + ".0/24"
    requires forall i :: 0 <= i < |peers| ==> Whole(peers[i])
    ensures var parsed := ParseInterface(WithPeers(RenderedFile(c), peers));
      && parsed == Ok(Recovered(c))
      && DeriveSubnet(parsed.value.address) == c.subnet
      && DeriveServerIP(parsed.value.address) == ServerIPFromSubnet(c.subnet)
  {
    RenderedFileNamesInterface(c, net);
    PeersNeverChangeTheInterface(RenderedFile(c), peers);
    ConfRoundTrip(c, net);
    SubnetRoundTrip(net);
  }
}
