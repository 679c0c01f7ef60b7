/**
 The invite store: an append-only file of JSON lines and an index from token hash to byte
 offset, kept by Append, rebuilt when the file is opened and rewritten by GC.
 JSON is a parameter: any codec that writes one line per record and can read it back.
 */
module InviteStore {
  import opened Wrappers
  import opened Text

  newtype Byte = b: int | 0 <= b < 256
  type Bytes = seq<Byte>

  const NL: Byte := 10
  const CR: Byte := 13

  /** The longest line, plus one, that the scanner of buildIndex and GC accepts. */
  const MAX_SCAN := 1024 * 1024
  /** The same for the default scanner FindByTokenHash uses. */
  const MAX_FIND := 64 * 1024

  /** An invite; `rest` stands for the fields the store never looks at. A zero expiry is None. */
  datatype InviteLink = InviteLink(
    tokenHash: string, expiresAt: Option<int>, maxUses: int, useCount: int, rest: string)

  predicate Live(r: InviteLink, now: int) {
    && !(r.expiresAt.Some? && now > r.expiresAt.value)
    && !(r.maxUses > 0 && r.useCount >= r.maxUses)
  }

  datatype Codec = Codec(
    marshal: InviteLink -> Option<Bytes>,
    unmarshal: Bytes -> Option<InviteLink>)
  {
    /** What encoding/json promises: one non-empty line that reads back as the same record. */
    ghost predicate Lawful() {
      forall r :: marshal(r).Some? ==> IsEncoding(r, marshal(r).value)
    }

    ghost predicate IsEncoding(r: InviteLink, line: Bytes) {
      line != [] && NL !in line && line[|line| - 1] != CR && unmarshal(line) == Some(r)
    }
  }

  // ---------- lines, tokens and offsets ----------

  predicate EndsInCR(line: Bytes) { line != [] && line[|line| - 1] == CR }

  /** `bufio.ScanLines` drops one carriage return from the end of a line. */
  function DropCR(line: Bytes): Bytes {
    if EndsInCR(line) then line[..|line| - 1] else line
  }

  function DropCRs(lines: seq<Bytes>): (tokens: seq<Bytes>)
    ensures |tokens| == |lines|
    ensures forall i :: 0 <= i < |lines| ==> tokens[i] == DropCR(lines[i])
  {
    seq(|lines|, i requires 0 <= i < |lines| => DropCR(lines[i]))
  }

  predicate Fit(lines: seq<Bytes>, max: nat) {
    forall i :: 0 <= i < |lines| ==> |lines[i]| < max
  }

  /** The byte position behind these lines when each is followed by a newline. */
  function Offset(lines: seq<Bytes>): nat {
    if lines == [] then 0 else Offset(lines[..|lines| - 1]) + |lines[|lines| - 1]| + 1
  }

  /** The hash a line is indexed under: none for blank and undecodable lines and empty hashes. */
  function HashOf(c: Codec, token: Bytes): Option<string> {
    if token == [] then None
    else
      match c.unmarshal(token)
      case Some(r) => if r.tokenHash != "" then Some(r.tokenHash) else None
      case None => None
  }

  function Recorded(index: map<string, nat>, hash: Option<string>, offset: nat): map<string, nat> {
    if hash.Some? then index[hash.value := offset] else index
  }

  /** The index that line after line leaves behind: tokens are decoded, `lines` give the widths. */
  function IndexOf(c: Codec, tokens: seq<Bytes>, lines: seq<Bytes>): map<string, nat>
    requires |tokens| == |lines|
  {
    if lines == [] then map[]
    else
      var n := |lines| - 1;
      Recorded(IndexOf(c, tokens[..n], lines[..n]), HashOf(c, tokens[n]), Offset(lines[..n]))
  }

  /** The index that names every line by its true position in the file. */
  function ExactIndex(c: Codec, file: Bytes): map<string, nat> {
    IndexOf(c, DropCRs(Lines(file, NL)), Lines(file, NL))
  }

  /** Line i is the last one indexed under hash h. */
  predicate IsLastMatch(c: Codec, tokens: seq<Bytes>, h: string, i: nat) {
    && i < |tokens|
    && HashOf(c, tokens[i]) == Some(h)
    && forall j :: i < j < |tokens| ==> HashOf(c, tokens[j]) != Some(h)
  }

  /** The linear scan: the record of the last line with this hash. */
  function LastRecord(c: Codec, tokens: seq<Bytes>, h: string): Option<InviteLink> {
    if tokens == [] then None
    else
      var n := |tokens| - 1;
      if HashOf(c, tokens[n]) == Some(h) then c.unmarshal(tokens[n]) else LastRecord(c, tokens[..n], h)
  }

  lemma {:induction false} LastRecordMeaning(c: Codec, tokens: seq<Bytes>, h: string)
    ensures forall i: nat :: IsLastMatch(c, tokens, h, i) ==> LastRecord(c, tokens, h) == c.unmarshal(tokens[i])
    ensures LastRecord(c, tokens, h) == None <==> forall i :: 0 <= i < |tokens| ==> HashOf(c, tokens[i]) != Some(h)
  {
    if tokens != [] {
      var n := |tokens| - 1;
      LastRecordMeaning(c, tokens[..n], h);
      if HashOf(c, tokens[n]) != Some(h) {
        forall i: nat | IsLastMatch(c, tokens, h, i)
          ensures LastRecord(c, tokens, h) == c.unmarshal(tokens[i])
        {
          assert IsLastMatch(c, tokens[..n], h, i);
        }
        assert forall i :: 0 <= i < n ==> tokens[..n][i] == tokens[i];
      }
    }
  }

  /** The index holds the offset of the last matching line, and nothing else. */
  lemma {:induction false} IndexMeaning(c: Codec, tokens: seq<Bytes>, lines: seq<Bytes>, h: string)
    requires |tokens| == |lines|
    ensures h !in IndexOf(c, tokens, lines) <==> LastRecord(c, tokens, h) == None
    ensures forall i: nat :: IsLastMatch(c, tokens, h, i) ==>
      h in IndexOf(c, tokens, lines) && IndexOf(c, tokens, lines)[h] == Offset(lines[..i])
  {
    if lines != [] {
      var n := |lines| - 1;
      IndexMeaning(c, tokens[..n], lines[..n], h);
      if HashOf(c, tokens[n]) != Some(h) {
        forall i: nat | IsLastMatch(c, tokens, h, i)
          ensures h in IndexOf(c, tokens, lines) && IndexOf(c, tokens, lines)[h] == Offset(lines[..i])
        {
          assert IsLastMatch(c, tokens[..n], h, i);
          assert lines[..n][..i] == lines[..i];
        }
      }
    }
  }

  lemma {:induction false} LastMatchExists(c: Codec, tokens: seq<Bytes>, h: string) returns (i: nat)
    requires LastRecord(c, tokens, h).Some?
    ensures IsLastMatch(c, tokens, h, i)
  {
    var n := |tokens| - 1;
    if HashOf(c, tokens[n]) == Some(h) {
      i := n;
    } else {
      i := LastMatchExists(c, tokens[..n], h);
    }
  }

  lemma {:induction false} OffsetCons(line: Bytes, lines: seq<Bytes>)
    ensures Offset([line] + lines) == |line| + 1 + Offset(lines)
  {
    var all := [line] + lines;
    if lines != [] {
      var n := |lines| - 1;
      OffsetCons(line, lines[..n]);
      assert all[..|all| - 1] == [line] + lines[..n];
    } else {
      assert all[..0] == [];
    }
  }

  /** Line i of a file starts at the offset of the lines before it. */
  lemma {:induction false} LinesFromOffset(file: Bytes, i: nat)
    requires i < |Lines(file, NL)|
    ensures Offset(Lines(file, NL)[..i]) < |file|
    ensures Lines(file[Offset(Lines(file, NL)[..i])..], NL) == Lines(file, NL)[i..]
    decreases i
  {
    var lines := Lines(file, NL);
    if i == 0 {
      assert file[0..] == file;
    } else {
      if NL !in file {
        SplitWithoutSeparator(file, NL);
        assert false;
      }
      var k := FirstSeparator(file, NL);
      var rest := file[k + 1..];
      LinesCons(file[..k], rest, NL);
      LinesFromOffset(rest, i - 1);
      assert lines[..i] == [file[..k]] + Lines(rest, NL)[..i - 1];
      OffsetCons(file[..k], Lines(rest, NL)[..i - 1]);
      assert file[Offset(lines[..i])..] == rest[Offset(Lines(rest, NL)[..i - 1])..];
    }
  }

  // ---------- the scanner ----------

  /** What a bufio.Scanner over lines yields, and whether it stopped at a line that is too long. */
  datatype Scan = Scan(tokens: seq<Bytes>, tooLong: bool)

  function ScanLines(lines: seq<Bytes>, max: nat): Scan {
    if lines == [] then Scan([], false)
    else if |lines[0]| >= max then Scan([], true)
    else
      var rest := ScanLines(lines[1..], max);
      Scan([DropCR(lines[0])] + rest.tokens, rest.tooLong)
  }

  lemma FitCons(lines: seq<Bytes>, max: nat)
    requires lines != []
    ensures Fit(lines, max) <==> |lines[0]| < max && Fit(lines[1..], max)
    ensures DropCRs(lines) == [DropCR(lines[0])] + DropCRs(lines[1..])
  {
  }

  /** The scanner reads the whole file iff every line fits its buffer. */
  lemma {:induction false} ScanAll(lines: seq<Bytes>, max: nat)
    ensures ScanLines(lines, max).tooLong <==> !Fit(lines, max)
    ensures Fit(lines, max) ==> ScanLines(lines, max).tokens == DropCRs(lines)
  {
    if lines != [] {
      FitCons(lines, max);
      ScanAll(lines[1..], max);
    }
  }

  // ---------- the store as a value ----------

  /** The file on disk, the index in memory, and whether the file handle is usable. */
  datatype State = State(file: Bytes, index: map<string, nat>, open: bool)

  datatype FindResult = Nothing | Found(inv: InviteLink) | Failure

  function Opened(c: Codec, file: Bytes): State {
    var scan := ScanLines(Lines(file, NL), MAX_SCAN);
    State(file, IndexOf(c, scan.tokens, scan.tokens), !scan.tooLong)
  }

  function Appended(c: Codec, s: State, inv: InviteLink): State {
    var data := c.marshal(inv);
    if data.None? || !s.open then s
    else
      State(s.file + data.value + [NL],
            Recorded(s.index, if inv.tokenHash != "" then Some(inv.tokenHash) else None, |s.file|),
            true)
  }

  function Find(c: Codec, s: State, h: string): FindResult {
    if h !in s.index then Nothing
    else if !s.open then Failure
    else if s.index[h] > |s.file| then Nothing
    else
      var scan := ScanLines(Lines(s.file[s.index[h]..], NL), MAX_FIND);
      if scan.tokens == [] then Nothing
      else
        match c.unmarshal(scan.tokens[0])
        case Some(inv) => Found(inv)
        case None => Failure
  }

  /** The lines GC keeps: those that decode to an invite still live. */
  function Kept(c: Codec, tokens: seq<Bytes>, now: int): (kept: seq<Bytes>)
    ensures forall l :: l in kept ==> l in tokens && KeepsLine(c, l, now)
  {
    if tokens == [] then []
    else
      var n := |tokens| - 1;
      Kept(c, tokens[..n], now) + (if KeepsLine(c, tokens[n], now) then [tokens[n]] else [])
  }

  predicate KeepsLine(c: Codec, token: Bytes, now: int) {
    token != [] && c.unmarshal(token).Some? && Live(c.unmarshal(token).value, now)
  }

  function Collected(c: Codec, s: State, now: int): State {
    if !s.open then s
    else if !Fit(Lines(s.file, NL), MAX_SCAN) then s.(open := false)
    else
      var kept := Kept(c, DropCRs(Lines(s.file, NL)), now);
      State(Unlines(kept, NL), IndexOf(c, kept, kept), true)
  }

  // ---------- the class ----------

  class Store {
    const codec: Codec
    var file: Bytes
    var index: map<string, nat>
    var open: bool

    function AsState(): State reads this { State(file, index, open) }

    /** NewStore: on a scan error the handle is closed again and the store is unusable. */
    constructor (codec: Codec, contents: Bytes)
      ensures this.codec == codec
      ensures AsState() == Opened(codec, contents)
    {
      this.codec, file, index, open := codec, contents, map[], true;
      new;
      var ok := BuildIndex();
      open := ok;
    }

    method BuildIndex() returns (ok: bool)
      requires index == map[]
      modifies this`index
      ensures var scan := ScanLines(Lines(file, NL), MAX_SCAN);
        ok == !scan.tooLong && index == IndexOf(codec, scan.tokens, scan.tokens)
    {
      var offset: nat := 0;
      var scan := ScanLines(Lines(file, NL), MAX_SCAN);
      var tokens := scan.tokens;
      for i := 0 to |tokens|
        invariant offset == Offset(tokens[..i])
        invariant index == IndexOf(codec, tokens[..i], tokens[..i])
      {
        var line := tokens[i];
        assert tokens[..i + 1][..i] == tokens[..i];
        if line == [] {
          offset := offset + |line| + 1;
          continue;
        }
        var inv := codec.unmarshal(line);
        if inv.Some? && inv.value.tokenHash != "" {
          index := index[inv.value.tokenHash := offset];
        }
        offset := offset + |line| + 1;
      }
      assert tokens[..|tokens|] == tokens;
      ok := !scan.tooLong;
    }

    method Append(inv: InviteLink) returns (ok: bool)
      modifies this
      ensures AsState() == Appended(codec, old(AsState()), inv)
      ensures ok <==> old(open) && codec.marshal(inv).Some?
    {
      var data := codec.marshal(inv);
      if data.None? || !open {
        return false;
      }
      var offset := |file|;
      file := file + data.value + [NL];
      if inv.tokenHash != "" {
        index := index[inv.tokenHash := offset];
      }
      ok := true;
    }

    method FindByTokenHash(hash: string) returns (r: FindResult)
      ensures r == Find(codec, AsState(), hash)
    {
      if hash !in index {
        return Nothing;
      }
      if !open {
        return Failure;
      }
      var offset := index[hash];
      if offset > |file| {
        return Nothing;
      }
      var scan := ScanLines(Lines(file[offset..], NL), MAX_FIND);
      if scan.tokens == [] {
        return Nothing;
      }
      var inv := codec.unmarshal(scan.tokens[0]);
      return if inv.Some? then Found(inv.value) else Failure;
    }

    method GC(now: int) returns (ok: bool)
      modifies this
      ensures AsState() == Collected(codec, old(AsState()), now)
      ensures ok <==> old(open) && Fit(Lines(old(file), NL), MAX_SCAN)
    {
      if !open {
        return false;
      }
      open := false;
      var scan := ScanLines(Lines(file, NL), MAX_SCAN);
      ScanAll(Lines(file, NL), MAX_SCAN);
      if scan.tooLong {
        return false;
      }
      var kept := FilterLive(scan.tokens, now);
      Rewrite(kept);
      open := true;
      ok := true;
    }

    method FilterLive(tokens: seq<Bytes>, now: int) returns (kept: seq<Bytes>)
      ensures kept == Kept(codec, tokens, now)
    {
      kept := [];
      for i := 0 to |tokens|
        invariant kept == Kept(codec, tokens[..i], now)
      {
        var line := tokens[i];
        assert tokens[..i + 1][..i] == tokens[..i];
        if line == [] {
          continue;
        }
        var inv := codec.unmarshal(line);
        if inv.None? {
          continue;
        }
        var expired := inv.value.expiresAt.Some? && now > inv.value.expiresAt.value;
        var consumed := inv.value.maxUses > 0 && inv.value.useCount >= inv.value.maxUses;
        if !expired && !consumed {
          kept := kept + [line];
        }
      }
      assert tokens[..|tokens|] == tokens;
    }

    /** Writes the kept lines to a new file and indexes each at the offset it is written at. */
    method Rewrite(kept: seq<Bytes>)
      requires [] !in kept
      modifies this`file, this`index
      ensures file == Unlines(kept, NL) && index == IndexOf(codec, kept, kept)
    {
      file, index := [], map[];
      var offset: nat := 0;
      for i := 0 to |kept|
        invariant file == Unlines(kept[..i], NL) && offset == Offset(kept[..i])
        invariant index == IndexOf(codec, kept[..i], kept[..i])
      {
        var line := kept[i];
        assert kept[..i + 1][..i] == kept[..i];
        var inv := codec.unmarshal(line);
        if inv.Some? && inv.value.tokenHash != "" {
          index := index[inv.value.tokenHash := offset];
        }
        file := file + line + [NL];
        assert kept[..i + 1] == kept[..i] + [line];
        UnlinesAppend(kept[..i], [line], NL);
        assert Unlines([line], NL) == line + [NL];
        offset := offset + |line| + 1;
      }
      assert kept[..|kept|] == kept;
    }
  }
}
