/**
 The bounded ring of log records behind the event stream: modular indexing into an array,
 proved to be a window over everything ever written. A write is one step here.
 */
module LogRing {

  datatype LogRecord = LogRecord(
    ts: string, level: string, component: string, source: string, msg: string, seqNo: int)

  /** How many of the n records written are gone from a ring of the given capacity. */
  function Overwritten(n: nat, cap: nat): nat {
    if n > cap then n - cap else 0
  }

  /** The records still in the ring with a sequence number above `after`. */
  function Suffix(history: seq<LogRecord>, cap: nat, after: int): (s: seq<LogRecord>) {
    var n := |history|;
    var gone := Overwritten(n, cap);
    history[if after <= gone then gone else if after >= n then n else after..]
  }

  /** Sequence numbers count the writes from one. */
  predicate Numbered(history: seq<LogRecord>) {
    forall i :: 0 <= i < |history| ==> history[i].seqNo == i + 1
  }

  lemma SlotsDiffer(i: nat, n: nat, cap: nat)
    requires 0 < cap && i < n < i + cap
    ensures i % cap != n % cap
  {
    var turns := n / cap - i / cap;
    assert n - i == cap * turns + (n % cap - i % cap);
    if turns != 0 {
      assert cap * turns >= cap || cap * turns + cap <= 0;
    }
  }

  class Ring {
    const records: array<LogRecord>
    var writeIdx: nat
    var total: nat
    var seqNo: nat
    ghost var history: seq<LogRecord>

    ghost predicate Valid()
      reads this, records
    {
      && records.Length > 0
      && writeIdx == total == seqNo == |history|
      && Numbered(history)
      && forall i :: Overwritten(|history|, records.Length) <= i < |history| ==>
           records[i % records.Length] == history[i]
    }

    /** A capacity that is not positive is replaced by 200. */
    constructor (capacity: int)
      ensures Valid() && fresh(records) && history == []
      ensures records.Length == if capacity <= 0 then 200 else capacity
    {
      var cap := if capacity <= 0 then 200 else capacity;
      records := new LogRecord[cap](_ => LogRecord("", "", "", "", "", 0));
      writeIdx, total, seqNo, history := 0, 0, 0, [];
    }

    method Write(rec: LogRecord) returns (s: int)
      requires Valid()
      modifies this, records
      ensures Valid()
      ensures history == old(history) + [rec.(seqNo := s)]
      ensures s == |history|
    {
      ghost var n := |history|;
      seqNo := seqNo + 1;
      s := seqNo;
      var idx := writeIdx;
      writeIdx := writeIdx + 1;
      forall i | Overwritten(n + 1, records.Length) <= i < n
        ensures i % records.Length != idx % records.Length
      {
        SlotsDiffer(i, n, records.Length);
      }
      records[idx % records.Length] := rec.(seqNo := s);
      total := total + 1;
      history := history + [rec.(seqNo := s)];
    }

    function NextSeq(): int reads this { seqNo + 1 }

    /** The record of write i + 1, as long as it is not overwritten. */
    method Slot(i: nat) returns (rec: LogRecord)
      requires Valid() && Overwritten(|history|, records.Length) <= i < |history|
      ensures rec == history[i]
    {
      rec := records[i % records.Length];
    }

    /** The last min(n, capacity) records, oldest first. */
    method Snapshot() returns (r: seq<LogRecord>)
      requires Valid()
      ensures r == history[Overwritten(|history|, records.Length)..]
    {
      if total == 0 {
        return [];
      }
      var cap := records.Length;
      var count := if total > cap then cap else total;
      r := [];
      for i := 0 to count
        invariant r == history[total - count..total - count + i]
      {
        var rec := Slot(total - count + i);
        r := r + [rec];
      }
    }

    method Since(afterSeq: int) returns (r: seq<LogRecord>)
      requires Valid()
      ensures r == Suffix(history, records.Length, afterSeq)
    {
      if total == 0 {
        return [];
      }
      var cap := records.Length;
      var start := if total > cap then total - cap else 0;
      r := [];
      ghost var from := if afterSeq <= start then start else if afterSeq >= total then total else afterSeq;
      for i := start to total
        invariant r == if i <= from then [] else history[from..i]
      {
        var rec := Slot(i);
        if rec.seqNo > afterSeq {
          assert i >= from && history[from..i + 1] == history[from..i] + [rec];
          r := r + [rec];
        }
      }
    }

    method Len() returns (n: nat)
      requires Valid()
      ensures n == |Suffix(history, records.Length, 0)|
    {
      n := if total > records.Length then records.Length else total;
    }
  }

  // ---------- what the window means ----------

  /** A record is in the reply iff it is above the cursor and not overwritten; order is kept. */
  lemma SuffixIsExact(history: seq<LogRecord>, cap: nat, after: int)
    requires Numbered(history)
    ensures var s := Suffix(history, cap, after);
      && (forall r :: r in s <==> r in history && r.seqNo > after && r.seqNo > Overwritten(|history|, cap))
      && (forall i :: 0 <= i < |s| ==> s[i].seqNo == |history| - |s| + i + 1)
  {
  }

  /** Nothing written after record a is missing from the reply iff a >= n - capacity. */
  lemma GapFreeIff(history: seq<LogRecord>, cap: nat, a: nat)
    requires Numbered(history) && cap > 0 && a <= |history|
    ensures (forall r :: r in history && r.seqNo > a ==> r in Suffix(history, cap, a)) <==> a >= |history| - cap
  {
    SuffixIsExact(history, cap, a);
    if a < |history| - cap {
      assert history[a] in history && history[a].seqNo == a + 1;
    }
  }
}
