/**
 What the invite store promises: its index agrees with the bytes of the file over every run
 of Append, GC and reopening, so a lookup is a linear scan for the last matching line.
 Where the code falls short of that, the exact condition is proved.
 */
module InviteStoreLaws {
  import opened Wrappers
  import opened Text
  import opened InviteStore

  ghost predicate Exact(c: Codec, s: State) { s.index == ExactIndex(c, s.file) }

  /** No line of the file ends in a carriage return. */
  predicate CRFree(file: Bytes) {
    forall l :: l in Lines(file, NL) ==> !EndsInCR(l)
  }

  function TokensOf(file: Bytes): seq<Bytes> { DropCRs(Lines(file, NL)) }

  function FromRecord(r: Option<InviteLink>): FindResult {
    if r.Some? then Found(r.value) else Nothing
  }

  // ---------- lookup ----------

  /** With an exact index a lookup reads the last matching line, if it fits the default scanner. */
  lemma FindReadsLastMatch(c: Codec, s: State, h: string, i: nat)
    requires s.open && Exact(c, s) && IsLastMatch(c, TokensOf(s.file), h, i)
    ensures Find(c, s, h) ==
      if |Lines(s.file, NL)[i]| < MAX_FIND then FromRecord(LastRecord(c, TokensOf(s.file), h)) else Nothing
  {
    var lines := Lines(s.file, NL);
    IndexMeaning(c, TokensOf(s.file), lines, h);
    LinesFromOffset(s.file, i);
    LastRecordMeaning(c, TokensOf(s.file), h);
    var scan := ScanLines(lines[i..], MAX_FIND);
    assert lines[i..][0] == lines[i];
    if |lines[i]| < MAX_FIND {
      assert scan.tokens[0] == DropCR(lines[i]) == TokensOf(s.file)[i];
    }
  }

  /**
   Lookup is the last-match linear scan of the file, except exactly when the last matching
   line has 64 KiB or more: then the record is reported as absent.
   */
  lemma FindIsLinearScan(c: Codec, s: State, h: string)
    requires s.open && Exact(c, s)
    ensures Find(c, s, h) == FromRecord(LastRecord(c, TokensOf(s.file), h)) <==>
      forall i: nat :: IsLastMatch(c, TokensOf(s.file), h, i) ==> |Lines(s.file, NL)[i]| < MAX_FIND
  {
    var tokens := TokensOf(s.file);
    IndexMeaning(c, tokens, Lines(s.file, NL), h);
    LastRecordMeaning(c, tokens, h);
    if LastRecord(c, tokens, h).Some? {
      var i := LastMatchExists(c, tokens, h);
      FindReadsLastMatch(c, s, h, i);
      forall j: nat | IsLastMatch(c, tokens, h, j) ensures j == i {}
    }
  }

  /** What lookup answers without a file handle, and for a hash no line was ever indexed under. */
  lemma FindWithoutHandle(c: Codec, s: State, h: string)
    ensures h !in s.index ==> Find(c, s, h) == Nothing
    ensures h in s.index && !s.open ==> Find(c, s, h) == Failure
  {
  }

  /** Literally: a record is missed iff the last line that holds it has 65536 bytes or more. */
  lemma FoundBelow64K(c: Codec, s: State, h: string, i: nat)
    requires s.open && Exact(c, s) && IsLastMatch(c, TokensOf(s.file), h, i)
    ensures c.unmarshal(TokensOf(s.file)[i]).Some? && c.unmarshal(TokensOf(s.file)[i]).value.tokenHash == h
    ensures Find(c, s, h) ==
      if |Lines(s.file, NL)[i]| < 65536 then Found(c.unmarshal(TokensOf(s.file)[i]).value) else Nothing
  {
    FindReadsLastMatch(c, s, h, i);
    LastRecordMeaning(c, TokensOf(s.file), h);
  }

  /** The lines a hash is indexed under: those that are not blank and decode to a record with it. */
  lemma {:induction false} IndexedIff(c: Codec, tokens: seq<Bytes>, lines: seq<Bytes>, h: string)
    requires |tokens| == |lines|
    ensures h in IndexOf(c, tokens, lines) <==>
      h != "" && exists t :: t in tokens && t != [] && c.unmarshal(t).Some? && c.unmarshal(t).value.tokenHash == h
  {
    if lines != [] {
      var n := |lines| - 1;
      IndexedIff(c, tokens[..n], lines[..n], h);
      assert tokens == tokens[..n] + [tokens[n]];
    }
  }

  /** Opening fails iff a line has 1 MiB or more; else every hash of the file, and no other, is indexed. */
  lemma OpenedIff(c: Codec, file: Bytes, h: string)
    ensures Opened(c, file).file == file
    ensures Opened(c, file).open <==> forall l :: l in Lines(file, NL) ==> |l| < 1048576
    ensures Opened(c, file).open ==> (h in Opened(c, file).index <==>
      h != "" && exists t ::
        t in TokensOf(file) && t != [] && c.unmarshal(t).Some? && c.unmarshal(t).value.tokenHash == h)
  {
    ScanAll(Lines(file, NL), MAX_SCAN);
    FitsIff(Lines(file, NL), MAX_SCAN);
    if Opened(c, file).open { IndexedIff(c, TokensOf(file), TokensOf(file), h); }
  }

  // ---------- Append ----------

  /** Without a file handle, or for a record that does not encode, Append changes nothing. */
  lemma AppendGivesUp(c: Codec, s: State, inv: InviteLink)
    requires !s.open || c.marshal(inv) == None
    ensures Appended(c, s, inv) == s
  {
  }

  /** Appending to a terminated file adds one line, at the old end of the file. */
  lemma LinesAfterAppend(c: Codec, file: Bytes, inv: InviteLink)
    requires c.Lawful() && c.marshal(inv).Some? && Terminated(file, NL)
    ensures var line := c.marshal(inv).value;
      && c.IsEncoding(inv, line)
      && Lines(file + line + [NL], NL) == Lines(file, NL) + [line]
      && TokensOf(file + line + [NL]) == TokensOf(file) + [line]
  {
    var line := c.marshal(inv).value;
    assert c.IsEncoding(inv, line);
    LinesAppend(file, line + [NL], NL);
    LinesCons(line, [], NL);
    assert file + (line + [NL]) == file + line + [NL];
    assert line + [NL] + [] == line + [NL];
    assert Lines<Byte>([], NL) == [];
    assert DropCR(line) == line;
  }

  lemma {:induction false} OffsetIsLength(file: Bytes)
    requires Terminated(file, NL)
    ensures Offset(Lines(file, NL)) == |file|
  {
    if file != [] {
      var k := FirstSeparator(file, NL);
      LinesCons(file[..k], file[k + 1..], NL);
      OffsetIsLength(file[k + 1..]);
      OffsetCons(file[..k], Lines(file[k + 1..], NL));
    }
  }

  lemma IndexSnoc(c: Codec, tokens: seq<Bytes>, lines: seq<Bytes>, t: Bytes, l: Bytes)
    requires |tokens| == |lines|
    ensures IndexOf(c, tokens + [t], lines + [l]) == Recorded(IndexOf(c, tokens, lines), HashOf(c, t), Offset(lines))
  {
  }

  lemma AppendKeepsIndexExact(c: Codec, s: State, inv: InviteLink)
    requires c.Lawful() && Exact(c, s) && Terminated(s.file, NL)
    ensures var t := Appended(c, s, inv); Exact(c, t) && Terminated(t.file, NL)
    ensures CRFree(s.file) ==> CRFree(Appended(c, s, inv).file)
  {
    if c.marshal(inv).Some? && s.open {
      var line := c.marshal(inv).value;
      LinesAfterAppend(c, s.file, inv);
      OffsetIsLength(s.file);
      IndexSnoc(c, TokensOf(s.file), Lines(s.file, NL), line, line);
    }
  }

  // ---------- reopening ----------

  function CountCR(lines: seq<Bytes>): nat {
    if lines == [] then 0
    else CountCR(lines[..|lines| - 1]) + (if EndsInCR(lines[|lines| - 1]) then 1 else 0)
  }

  lemma {:induction false} StrippedOffset(lines: seq<Bytes>)
    ensures Offset(DropCRs(lines)) == Offset(lines) - CountCR(lines)
  {
    if lines != [] {
      var n := |lines| - 1;
      StrippedOffset(lines[..n]);
      assert DropCRs(lines)[..n] == DropCRs(lines[..n]);
    }
  }

  lemma {:induction false} CountCRZero(lines: seq<Bytes>)
    ensures CountCR(lines) == 0 <==> forall l :: l in lines ==> !EndsInCR(l)
  {
    if lines != [] {
      var n := |lines| - 1;
      CountCRZero(lines[..n]);
      assert lines == lines[..n] + [lines[n]];
    }
  }

  /**
   buildIndex counts a line without its carriage return, so the offset it stores for a hash is
   short by one byte for every earlier line that ends in one: exact iff there is none.
   */
  lemma RebuiltOffset(c: Codec, file: Bytes, h: string, i: nat)
    requires Fit(Lines(file, NL), MAX_SCAN) && IsLastMatch(c, TokensOf(file), h, i)
    ensures h in Opened(c, file).index && h in ExactIndex(c, file)
    ensures Opened(c, file).index[h] == ExactIndex(c, file)[h] - CountCR(Lines(file, NL)[..i])
    ensures Opened(c, file).index[h] == ExactIndex(c, file)[h] <==>
      forall l :: l in Lines(file, NL)[..i] ==> !EndsInCR(l)
  {
    var lines := Lines(file, NL);
    ScanAll(lines, MAX_SCAN);
    OffsetsInTokensAndLines(c, TokensOf(file), lines, h, i);
    StrippedOffset(lines[..i]);
    assert DropCRs(lines)[..i] == DropCRs(lines[..i]);
    CountCRZero(lines[..i]);
  }

  lemma OffsetsInTokensAndLines(c: Codec, tokens: seq<Bytes>, lines: seq<Bytes>, h: string, i: nat)
    requires |tokens| == |lines| && IsLastMatch(c, tokens, h, i)
    ensures h in IndexOf(c, tokens, tokens) && IndexOf(c, tokens, tokens)[h] == Offset(tokens[..i])
    ensures h in IndexOf(c, tokens, lines) && IndexOf(c, tokens, lines)[h] == Offset(lines[..i])
  {
    IndexMeaning(c, tokens, lines, h);
    IndexMeaning(c, tokens, tokens, h);
  }

  lemma DropCRsOfCRFree(lines: seq<Bytes>)
    requires forall l :: l in lines ==> !EndsInCR(l)
    ensures DropCRs(lines) == lines
  {
  }

  /** Opening a file without carriage returns gives the exact index, past blank and broken lines. */
  lemma ReopenIsExact(c: Codec, file: Bytes)
    requires CRFree(file) && Fit(Lines(file, NL), MAX_SCAN)
    ensures Opened(c, file).open && Exact(c, Opened(c, file))
  {
    ScanAll(Lines(file, NL), MAX_SCAN);
    DropCRsOfCRFree(Lines(file, NL));
  }

  /** The piece a torn write left behind swallows the record appended after it. */
  lemma TornAppend(head: Bytes, tail: Bytes, line: Bytes)
    requires Terminated(head, NL) && NL !in tail && NL !in line && tail != []
    ensures Lines(head + tail + line + [NL], NL) == Lines(head, NL) + [tail + line]
  {
    assert head + tail + line + [NL] == head + (tail + line + [NL]);
    LastLine(head, tail + line + [NL], tail + line, NL);
  }

  /** An exact index only holds the starts of lines. */
  lemma IndexedAtLineStart(c: Codec, file: Bytes, h: string) returns (i: nat)
    requires h in ExactIndex(c, file)
    ensures i < |Lines(file, NL)| && ExactIndex(c, file)[h] == Offset(Lines(file, NL)[..i])
  {
    IndexMeaning(c, TokensOf(file), Lines(file, NL), h);
    i := LastMatchExists(c, TokensOf(file), h);
  }

  lemma PrefixOfSnoc<T>(s: seq<T>, x: T, i: nat)
    requires i <= |s|
    ensures (s + [x])[..i] == s[..i]
  {
  }

  lemma TornAppendIsNotExact(c: Codec, head: Bytes, tail: Bytes, line: Bytes, h: string)
    requires Terminated(head, NL) && NL !in tail && NL !in line && tail != []
    requires h in ExactIndex(c, head + tail + line + [NL])
    ensures ExactIndex(c, head + tail + line + [NL])[h] < |head + tail|
  {
    var file, before := head + tail + line + [NL], Lines(head, NL);
    TornAppend(head, tail, line);
    var i := IndexedAtLineStart(c, file, h);
    PrefixOfSnoc(before, tail + line, i);
    OffsetMonotone(before, i);
    OffsetIsLength(head);
  }

  /**
   After an append, the index that Append maintained is the one an exact scan would build iff
   the file it appended to was terminated (no torn last line).
   */
  lemma AppendIsExactIffTerminated(c: Codec, s: State, inv: InviteLink)
    requires c.Lawful() && s.open && Exact(c, s)
    requires c.marshal(inv).Some? && inv.tokenHash != ""
    ensures Exact(c, Appended(c, s, inv)) <==> Terminated(s.file, NL)
  {
    var line := c.marshal(inv).value;
    assert c.IsEncoding(inv, line);
    if Terminated(s.file, NL) {
      AppendKeepsIndexExact(c, s, inv);
    } else {
      var head, tail := TornTail(s.file, NL);
      var t := Appended(c, s, inv);
      assert t.index[inv.tokenHash] == |head + tail|;
      if inv.tokenHash in ExactIndex(c, t.file) {
        TornAppendIsNotExact(c, head, tail, line, inv.tokenHash);
      }
    }
  }

  lemma {:induction false} OffsetMonotone(lines: seq<Bytes>, i: nat)
    requires i <= |lines|
    ensures Offset(lines[..i]) <= Offset(lines)
  {
    if i < |lines| {
      var n := |lines| - 1;
      OffsetMonotone(lines[..n], i);
      assert lines[..n][..i] == lines[..i];
    } else {
      assert lines[..i] == lines;
    }
  }

  // ---------- GC ----------

  /** The linear scan restricted to records still live. */
  function LastLive(c: Codec, tokens: seq<Bytes>, h: string, now: int): Option<InviteLink> {
    if tokens == [] then None
    else
      var n := |tokens| - 1;
      if HashOf(c, tokens[n]) == Some(h) && KeepsLine(c, tokens[n], now) then c.unmarshal(tokens[n])
      else LastLive(c, tokens[..n], h, now)
  }

  lemma {:induction false} LastRecordOfKept(c: Codec, tokens: seq<Bytes>, h: string, now: int)
    ensures LastRecord(c, Kept(c, tokens, now), h) == LastLive(c, tokens, h, now)
  {
    if tokens != [] {
      var n := |tokens| - 1;
      var before := Kept(c, tokens[..n], now);
      LastRecordOfKept(c, tokens[..n], h, now);
      if KeepsLine(c, tokens[n], now) {
        assert (before + [tokens[n]])[..|before|] == before;
      } else {
        assert before + [] == before;
      }
    }
  }

  lemma {:induction false} LastLiveMeaning(c: Codec, tokens: seq<Bytes>, h: string, now: int)
    ensures LastLive(c, tokens, h, now).Some? ==>
      Live(LastLive(c, tokens, h, now).value, now)
    ensures LastLive(c, tokens, h, now).Some? <==>
      exists t :: t in tokens && HashOf(c, t) == Some(h) && KeepsLine(c, t, now)
    ensures (LastRecord(c, tokens, h).Some? && Live(LastRecord(c, tokens, h).value, now)) ==>
      LastLive(c, tokens, h, now) == LastRecord(c, tokens, h)
    ensures LastRecord(c, tokens, h) == None ==> LastLive(c, tokens, h, now) == None
  {
    if tokens != [] {
      var n := |tokens| - 1;
      LastLiveMeaning(c, tokens[..n], h, now);
      assert tokens == tokens[..n] + [tokens[n]];
    }
  }

  lemma KeptHasNoNewline(c: Codec, file: Bytes, now: int)
    ensures forall l :: l in Kept(c, TokensOf(file), now) ==> NL !in l
  {
    var tokens := TokensOf(file);
    forall l | l in Kept(c, tokens, now) ensures NL !in l {
      assert l in tokens;
      var i :| 0 <= i < |tokens| && tokens[i] == l;
      LineWithoutSeparator(file, NL, i);
    }
  }

  /** GC leaves exactly the live decodable lines, in order, and a terminated file. */
  lemma GCKeepsLiveLines(c: Codec, s: State, now: int)
    requires s.open && Fit(Lines(s.file, NL), MAX_SCAN)
    ensures var t := Collected(c, s, now);
      && t.open && Terminated(t.file, NL)
      && Lines(t.file, NL) == Kept(c, TokensOf(s.file), now)
  {
    KeptHasNoNewline(c, s.file, now);
    LinesOfUnlines(Kept(c, TokensOf(s.file), now), NL);
  }

  lemma {:induction false} KeptAsOften(c: Codec, tokens: seq<Bytes>, now: int, t: Bytes)
    ensures multiset(Kept(c, tokens, now))[t] == if KeepsLine(c, t, now) then multiset(tokens)[t] else 0
  {
    if tokens != [] {
      var n := |tokens| - 1;
      KeptAsOften(c, tokens[..n], now, t);
      assert tokens == tokens[..n] + [tokens[n]];
    }
  }

  /**
   GC keeps a line as often as it stands in the file if it decodes to an invite that has no
   expiry or one not yet past, and no use limit or one not yet reached; it keeps no other line.
   */
  lemma GCKeepsExactly(c: Codec, s: State, now: int, t: Bytes)
    requires s.open && Fit(Lines(s.file, NL), MAX_SCAN)
    ensures multiset(Lines(Collected(c, s, now).file, NL))[t] ==
      if t != [] && c.unmarshal(t).Some? &&
         var r := c.unmarshal(t).value;
         (r.expiresAt == None || now <= r.expiresAt.value) && (r.maxUses <= 0 || r.useCount < r.maxUses)
      then multiset(TokensOf(s.file))[t] else 0
  {
    GCKeepsLiveLines(c, s, now);
    KeptAsOften(c, TokensOf(s.file), now, t);
  }

  /** GC without a file handle does nothing; a line of 1 MiB or more costs the handle and nothing else. */
  lemma GCGivesUp(c: Codec, s: State, now: int)
    ensures !s.open ==> Collected(c, s, now) == s
    ensures s.open ==> (Collected(c, s, now).open <==> forall l :: l in Lines(s.file, NL) ==> |l| < 1048576)
    ensures !Collected(c, s, now).open ==> Collected(c, s, now) == State(s.file, s.index, false)
  {
    FitsIff(Lines(s.file, NL), MAX_SCAN);
  }

  lemma FitsIff(lines: seq<Bytes>, max: nat)
    ensures Fit(lines, max) <==> forall l :: l in lines ==> |l| < max
  {
    if Fit(lines, max) {
      forall l | l in lines ensures |l| < max {
        var i :| 0 <= i < |lines| && lines[i] == l;
      }
    }
  }

  /** The index GC leaves is exact when no line it writes ends in a carriage return. */
  lemma GCKeepsIndexExact(c: Codec, s: State, now: int)
    requires s.open && Fit(Lines(s.file, NL), MAX_SCAN) && CRFree(Collected(c, s, now).file)
    ensures Exact(c, Collected(c, s, now))
  {
    GCKeepsLiveLines(c, s, now);
    DropCRsOfCRFree(Lines(Collected(c, s, now).file, NL));
  }

  /** No line ends in two carriage returns. */
  predicate SingleCR(file: Bytes) {
    forall l :: l in Lines(file, NL) ==> !EndsInCR(DropCR(l))
  }

  /** GC strips one carriage return from each line, so one at most in every line leaves none. */
  lemma GCStripsCR(c: Codec, s: State, now: int)
    requires s.open && Fit(Lines(s.file, NL), MAX_SCAN) && SingleCR(s.file)
    ensures CRFree(Collected(c, s, now).file)
  {
    GCKeepsLiveLines(c, s, now);
    forall l | l in Lines(Collected(c, s, now).file, NL) ensures !EndsInCR(l) {
      assert l in TokensOf(s.file);
    }
  }

  lemma SingleCRIfCRFree(file: Bytes)
    requires CRFree(file)
    ensures SingleCR(file)
  {
  }

  /**
   After a GC a hash finds its last live record, if that line is below 64 KiB: the same record
   as before iff the latest one was live or there was none, and nothing iff none is live. A
   dead latest record uncovers the live one before it.
   */
  lemma LookupAfterGC(c: Codec, s: State, h: string, now: int)
    requires s.open && Fit(Lines(s.file, NL), MAX_SCAN) && CRFree(Collected(c, s, now).file)
    ensures var t := Collected(c, s, now);
      var before, after := LastRecord(c, TokensOf(s.file), h), LastLive(c, TokensOf(s.file), h, now);
      && LastRecord(c, TokensOf(t.file), h) == after
      && (Find(c, t, h) == FromRecord(after) <==>
        forall i: nat :: IsLastMatch(c, TokensOf(t.file), h, i) ==> |Lines(t.file, NL)[i]| < MAX_FIND)
      && (after == before <==> before == None || Live(before.value, now))
      && (after == None <==> !exists t :: t in TokensOf(s.file) && HashOf(c, t) == Some(h) && KeepsLine(c, t, now))
  {
    var t := Collected(c, s, now);
    GCKeepsIndexExact(c, s, now);
    GCKeepsLiveLines(c, s, now);
    DropCRsOfCRFree(Lines(t.file, NL));
    LastRecordOfKept(c, TokensOf(s.file), h, now);
    LastLiveMeaning(c, TokensOf(s.file), h, now);
    FindIsLinearScan(c, t, h);
  }

  lemma {:induction false} KeptOfKept(c: Codec, tokens: seq<Bytes>, now: int)
    requires forall i :: 0 <= i < |tokens| ==> KeepsLine(c, tokens[i], now)
    ensures Kept(c, tokens, now) == tokens
  {
    if tokens != [] {
      var n := |tokens| - 1;
      KeptOfKept(c, tokens[..n], now);
      assert KeepsLine(c, tokens[n], now);
      assert tokens == tokens[..n] + [tokens[n]];
    }
  }

  lemma {:induction false} OffsetOfKept(c: Codec, tokens: seq<Bytes>, now: int)
    ensures Offset(Kept(c, tokens, now)) <= Offset(tokens)
  {
    if tokens != [] {
      var n := |tokens| - 1;
      var before := Kept(c, tokens[..n], now);
      OffsetOfKept(c, tokens[..n], now);
      if KeepsLine(c, tokens[n], now) {
        assert (before + [tokens[n]])[..|before|] == before;
      } else {
        assert before + [] == before;
      }
    }
  }

  /** A second GC at the same time leaves the file alone iff no line the first kept ends in CR. */
  lemma GCTwice(c: Codec, s: State, now: int)
    requires s.open && Fit(Lines(s.file, NL), MAX_SCAN)
    ensures var once := Collected(c, s, now);
      Collected(c, once, now) == once <==> CRFree(once.file)
  {
    var kept := Kept(c, TokensOf(s.file), now);
    var once := Collected(c, s, now);
    GCKeepsLiveLines(c, s, now);
    assert Fit(kept, MAX_SCAN) by {
      forall i | 0 <= i < |kept| ensures |kept[i]| < MAX_SCAN {
        assert kept[i] in TokensOf(s.file);
      }
    }
    var again := Kept(c, DropCRs(kept), now);
    if CRFree(once.file) {
      DropCRsOfCRFree(kept);
      KeptOfKept(c, kept, now);
    } else {
      GCKeepsLiveLines(c, once, now);
      CountCRZero(kept);
      StrippedOffset(kept);
      OffsetOfKept(c, DropCRs(kept), now);
      assert Offset(again) < Offset(kept);
    }
  }

  // ---------- runs ----------

  datatype Op = Append(inv: InviteLink) | GC(now: int) | Reopen

  function Step(c: Codec, s: State, op: Op): State {
    match op
    case Append(inv) => Appended(c, s, inv)
    case GC(now) => Collected(c, s, now)
    case Reopen => Opened(c, s.file)
  }

  function Run(c: Codec, s: State, ops: seq<Op>): State
    decreases ops
  {
    if ops == [] then s else Run(c, Step(c, s, ops[0]), ops[1..])
  }

  /** What every step keeps; a store whose file handle is lost promises nothing about its index. */
  ghost predicate Inv(c: Codec, s: State) {
    Clean(s.file) && (s.open ==> Exact(c, s))
  }

  lemma StepKeepsInv(c: Codec, s: State, op: Op)
    requires c.Lawful() && Inv(c, s)
    ensures Inv(c, Step(c, s, op))
  {
    match op
    case Append(inv) =>
      if s.open { AppendKeepsIndexExact(c, s, inv); }
    case GC(now) =>
      if s.open && Fit(Lines(s.file, NL), MAX_SCAN) {
        SingleCRIfCRFree(s.file);
        GCStripsCR(c, s, now);
        GCKeepsIndexExact(c, s, now);
        GCKeepsLiveLines(c, s, now);
      }
    case Reopen =>
      ScanAll(Lines(s.file, NL), MAX_SCAN);
      if Fit(Lines(s.file, NL), MAX_SCAN) { ReopenIsExact(c, s.file); }
  }

  lemma {:induction false} RunKeepsInv(c: Codec, s: State, ops: seq<Op>)
    requires c.Lawful() && Inv(c, s)
    ensures Inv(c, Run(c, s, ops))
    decreases ops
  {
    if ops != [] {
      StepKeepsInv(c, s, ops[0]);
      RunKeepsInv(c, Step(c, s, ops[0]), ops[1..]);
    }
  }

  /** A file that whole lines without carriage returns were written to, blank and broken ones among them. */
  predicate Clean(file: Bytes) { Terminated(file, NL) && CRFree(file) }

  lemma OpenedRunKeepsInv(c: Codec, file: Bytes, ops: seq<Op>)
    requires c.Lawful() && Clean(file)
    ensures Inv(c, Run(c, Opened(c, file), ops))
  {
    ScanAll(Lines(file, NL), MAX_SCAN);
    if Fit(Lines(file, NL), MAX_SCAN) { ReopenIsExact(c, file); }
    RunKeepsInv(c, Opened(c, file), ops);
  }

  /**
   After any run from any clean file, a usable store finds exactly what a linear scan of the
   file finds, for every hash whose last line is below 64 KiB.
   */
  lemma RunsFindWhatAScanFinds(c: Codec, file: Bytes, ops: seq<Op>, h: string)
    requires c.Lawful() && Clean(file)
    ensures var s := Run(c, Opened(c, file), ops);
      s.open ==>
        (Find(c, s, h) == FromRecord(LastRecord(c, TokensOf(s.file), h)) <==>
          forall i: nat :: IsLastMatch(c, TokensOf(s.file), h, i) ==> |Lines(s.file, NL)[i]| < MAX_FIND)
  {
    OpenedRunKeepsInv(c, file, ops);
    var s := Run(c, Opened(c, file), ops);
    if s.open { FindIsLinearScan(c, s, h); }
  }

  /** Reopening at any point of a run gives back the index the store had. */
  lemma ReopenChangesNothing(c: Codec, file: Bytes, ops: seq<Op>)
    requires c.Lawful() && Clean(file)
    ensures var s := Run(c, Opened(c, file), ops);
      s.open && Fit(Lines(s.file, NL), MAX_SCAN) ==> Opened(c, s.file) == s
  {
    OpenedRunKeepsInv(c, file, ops);
    var s := Run(c, Opened(c, file), ops);
    if s.open && Fit(Lines(s.file, NL), MAX_SCAN) { ReopenIsExact(c, s.file); }
  }

  /**
   One GC mends a file: unterminated or with carriage returns (one to a line at most), from
   then on every run keeps the index exact.
   */
  lemma GCMendsFile(c: Codec, file: Bytes, now: int, ops: seq<Op>)
    requires c.Lawful() && SingleCR(file) && Fit(Lines(file, NL), MAX_SCAN)
    ensures Inv(c, Run(c, Collected(c, Opened(c, file), now), ops))
  {
    var s := Opened(c, file);
    ScanAll(Lines(file, NL), MAX_SCAN);
    GCStripsCR(c, s, now);
    GCKeepsIndexExact(c, s, now);
    GCKeepsLiveLines(c, s, now);
    RunKeepsInv(c, Collected(c, s, now), ops);
  }

  lemma AppendedIsFound(c: Codec, s: State, inv: InviteLink)
    requires c.Lawful() && Inv(c, s) && s.open && inv.tokenHash != "" && c.marshal(inv).Some?
    ensures Find(c, Appended(c, s, inv), inv.tokenHash) == Found(inv) <==> |c.marshal(inv).value| < MAX_FIND
  {
    var t := Appended(c, s, inv);
    LinesAfterAppend(c, s.file, inv);
    AppendKeepsIndexExact(c, s, inv);
    var n := |Lines(s.file, NL)|;
    assert IsLastMatch(c, TokensOf(t.file), inv.tokenHash, n);
    FindReadsLastMatch(c, t, inv.tokenHash, n);
    LastRecordMeaning(c, TokensOf(t.file), inv.tokenHash);
  }

  /** An invite just appended is found at once iff its line is below 64 KiB. */
  lemma AppendThenFind(c: Codec, file: Bytes, ops: seq<Op>, inv: InviteLink)
    requires c.Lawful() && Clean(file) && inv.tokenHash != "" && c.marshal(inv).Some?
    ensures var s := Run(c, Opened(c, file), ops);
      s.open ==> (Find(c, Appended(c, s, inv), inv.tokenHash) == Found(inv) <==> |c.marshal(inv).value| < MAX_FIND)
  {
    OpenedRunKeepsInv(c, file, ops);
    var s := Run(c, Opened(c, file), ops);
    if s.open { AppendedIsFound(c, s, inv); }
  }

  // ---------- the inputs that show the limits ----------

  /** One blank line that ends in a carriage return puts every later offset one byte short. */
  lemma CarriageReturnShiftsOffset(c: Codec, inv: InviteLink)
    requires c.Lawful() && inv.tokenHash != "" && c.marshal(inv).Some? && |c.marshal(inv).value| < MAX_SCAN
    ensures var file := [CR, NL] + c.marshal(inv).value + [NL];
      && inv.tokenHash in Opened(c, file).index && Opened(c, file).index[inv.tokenHash] == 1
      && inv.tokenHash in ExactIndex(c, file) && ExactIndex(c, file)[inv.tokenHash] == 2
  {
    var line := c.marshal(inv).value;
    var file := [CR, NL] + line + [NL];
    assert c.IsEncoding(inv, line);
    LinesCons([CR], line + [NL], NL);
    SingleLine(line, NL);
    assert file == [CR] + [NL] + (line + [NL]);
    assert Lines(file, NL) == [[CR], line];
    assert IsLastMatch(c, TokensOf(file), inv.tokenHash, 1);
    assert Lines(file, NL)[..1] == [[CR]];
    assert Offset([[CR]]) == 2 && CountCR([[CR]]) == 1 by { assert [[CR]][..0] == []; }
    RebuiltOffset(c, file, inv.tokenHash, 1);
    IndexMeaning(c, TokensOf(file), Lines(file, NL), inv.tokenHash);
  }

  /** A file of one stray byte: the appended record is indexed where no line starts. */
  lemma StrayByteBreaksAppend(c: Codec, stray: Byte, inv: InviteLink)
    requires c.Lawful() && c.marshal(inv).Some? && inv.tokenHash != ""
    requires stray != NL && stray != CR && c.unmarshal([stray]) == None
    ensures var s := State([stray], map[], true); Exact(c, s) && !Exact(c, Appended(c, s, inv))
  {
    SingleLine([stray], NL);
    assert Lines([stray], NL) == [[stray]];
    assert TokensOf([stray]) == [[stray]];
    IndexSnoc(c, [], [], [stray], [stray]);
    assert [] + [[stray]] == [[stray]];
    AppendIsExactIffTerminated(c, State([stray], map[], true), inv);
  }

  /** GC with a dead latest record brings the live record before it back. */
  lemma DeadRecordUncoversLive(c: Codec, live: InviteLink, dead: InviteLink, now: int)
    requires c.Lawful() && c.marshal(live).Some? && c.marshal(dead).Some?
    requires live.tokenHash == dead.tokenHash != "" && Live(live, now) && !Live(dead, now)
    requires |c.marshal(live).value| < MAX_SCAN && |c.marshal(dead).value| < MAX_SCAN
    ensures var s := Appended(c, Appended(c, Opened(c, []), live), dead);
      && LastRecord(c, TokensOf(s.file), live.tokenHash) == Some(dead)
      && LastRecord(c, TokensOf(Collected(c, s, now).file), live.tokenHash) == Some(live)
  {
    var h, l, d := live.tokenHash, c.marshal(live).value, c.marshal(dead).value;
    var s := Appended(c, Appended(c, Opened(c, []), live), dead);
    TwoAppends(c, live, dead);
    assert s.open && CRFree(s.file) && Fit([l, d], MAX_SCAN);
    SingleCRIfCRFree(s.file);
    GCStripsCR(c, s, now);
    LookupAfterGC(c, s, h, now);
    LastOfTwo(c, l, d, h, now);
  }

  lemma TwoAppends(c: Codec, first: InviteLink, second: InviteLink)
    requires c.Lawful() && c.marshal(first).Some? && c.marshal(second).Some?
    ensures var s := Appended(c, Appended(c, Opened(c, []), first), second);
      var l, d := c.marshal(first).value, c.marshal(second).value;
      && s.open && Lines(s.file, NL) == [l, d] == TokensOf(s.file)
      && c.IsEncoding(first, l) && c.IsEncoding(second, d)
  {
    var l, d := c.marshal(first).value, c.marshal(second).value;
    assert Lines<Byte>([], NL) == [];
    LinesAfterAppend(c, [], first);
    var file := [] + l + [NL];
    assert Terminated(file, NL);
    LinesAfterAppend(c, file, second);
  }

  lemma LastOfTwo(c: Codec, l: Bytes, d: Bytes, h: string, now: int)
    requires HashOf(c, l) == Some(h) && HashOf(c, d) == Some(h) && KeepsLine(c, l, now) && !KeepsLine(c, d, now)
    ensures LastRecord(c, [l, d], h) == c.unmarshal(d) && LastLive(c, [l, d], h, now) == c.unmarshal(l)
  {
  }

  /** GC of a file of one line keeps the line, less one carriage return, if it holds a live record. */
  lemma GCOfOneLine(c: Codec, line: Bytes, now: int)
    requires NL !in line && |line| < MAX_SCAN && KeepsLine(c, DropCR(line), now)
    ensures var s := State(line + [NL], map[], true);
      Fit(Lines(s.file, NL), MAX_SCAN) && Collected(c, s, now).file == DropCR(line) + [NL]
  {
    var token := DropCR(line);
    SingleLine(line, NL);
    assert DropCRs([line]) == [token];
    assert Kept(c, [token], now) == [token] by { assert [token][..0] == []; }
    assert Unlines([token], NL) == token + [NL];
  }

  /** A line behind two carriage returns loses one in each GC. */
  lemma DoubleCRShrinksTwice(c: Codec, inv: InviteLink, now: int)
    requires c.Lawful() && c.marshal(inv).Some? && Live(inv, now) && |c.marshal(inv).value| < MAX_SCAN - 2
    requires c.unmarshal(c.marshal(inv).value + [CR]) == Some(inv)
    ensures var line := c.marshal(inv).value;
      var once := Collected(c, State(line + [CR, CR, NL], map[], true), now);
      once.file == line + [CR, NL] && Collected(c, once, now) != once
  {
    var line := c.marshal(inv).value;
    assert c.IsEncoding(inv, line);
    var two, one := line + [CR, CR], line + [CR];
    assert DropCR(two) == one;
    GCOfOneLine(c, two, now);
    assert two + [NL] == line + [CR, CR, NL] && one + [NL] == line + [CR, NL];
    SingleLine(one, NL);
    assert one in [one] && EndsInCR(one);
    GCTwice(c, State(two + [NL], map[], true), now);
  }
}
