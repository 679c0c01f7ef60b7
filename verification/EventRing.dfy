/**
 The lifecycle event buffer and its cursor: events carry decimal ids, the buffer evicts its
 oldest event when full, and a client polls with the id it saw last. The class is the code;
 the run of adds and polls below it is what a client observes.
 */
module EventBuffer {
  import opened Decimal

  datatype LifecycleEvent = LifecycleEvent(
    id: string, kind: string, timestamp: string, message: string, details: string)

  /** Builds the numeral from its last digit to its first; a negative number has no digits. */
  method Itoa3(n: int) returns (s: string)
    ensures s == if n < 0 then "" else ItoaNat(n)
  {
    if n == 0 {
      return "0";
    }
    s := "";
    var m := n;
    while m > 0
      invariant n < 0 ==> m == n && s == ""
      invariant n > 0 ==> m >= 0 && ItoaNat(n) == if m == 0 then s else ItoaNat(m) + s
    {
      ghost var before := s;
      s := [DigitOf(m % 10)] + s;
      if m >= 10 {
        assert ItoaNat(m) + before == ItoaNat(m / 10) + s;
      } else {
        assert ItoaNat(m) == [DigitOf(m)];
      }
      m := m / 10;
    }
  }

  const TWO63: int := 0x8000_0000_0000_0000

  /** A 64-bit integer after overflow. */
  function Wrapped(n: int): (w: int)
    ensures -TWO63 <= w < TWO63
  {
    (n + TWO63) % (2 * TWO63) - TWO63
  }

  lemma WrapTwice(n: int, d: int)
    ensures Wrapped(Wrapped(n) * 10 + d) == Wrapped(n * 10 + d)
  {
    var k := (n + TWO63) / (2 * TWO63);
    assert Wrapped(n) == n - k * (2 * TWO63);
    WrapShift(n * 10 + d, -10 * k);
    assert Wrapped(n) * 10 + d == n * 10 + d + (-10 * k) * (2 * TWO63);
  }

  lemma WrapShift(n: int, k: int)
    ensures Wrapped(n + k * (2 * TWO63)) == Wrapped(n)
  {
    var q, m := (n + TWO63) / (2 * TWO63), (n + TWO63) % (2 * TWO63);
    assert n + k * (2 * TWO63) + TWO63 == (q + k) * (2 * TWO63) + m;
  }

  /** Reads a numeral, wrapping at 64 bits; anything that is not a digit makes the result 0, never an error. */
  method Atoi2(s: string) returns (n: int)
    ensures n == if AllDigits(s) then Wrapped(Value(s)) else 0
  {
    n := 0;
    for i := 0 to |s|
      invariant AllDigits(s[..i]) && n == Wrapped(Value(s[..i]))
    {
      if s[i] < '0' || s[i] > '9' {
        return 0;
      }
      assert s[..i + 1][..i] == s[..i];
      WrapTwice(Value(s[..i]), s[i] as int - '0' as int);
      n := Wrapped(n * 10 + (s[i] as int - '0' as int));
    }
    assert s[..|s|] == s;
  }

  /** Events are numbered from one in the order they were added. */
  predicate Numbered(history: seq<LifecycleEvent>) {
    forall i :: 0 <= i < |history| ==> history[i].id == ItoaNat(i + 1)
  }

  /** How many of n events a buffer of the given size has evicted. */
  function Gone(n: nat, max: nat): nat { if n > max then n - max else 0 }

  function Buffered(history: seq<LifecycleEvent>, max: nat): seq<LifecycleEvent> {
    history[Gone(|history|, max)..]
  }

  function ClampLimit(limit: int): nat { if limit <= 0 || limit > 1000 then 100 else limit }

  /** Where a listing starts: behind the first event with the cursor's id, or at the oldest. */
  function StartAfter(events: seq<LifecycleEvent>, after: string): nat {
    if events == [] then 0
    else if events[0].id == after then 1
    else
      var rest := StartAfter(events[1..], after);
      if rest == 0 then 0 else rest + 1
  }

  predicate IsFirst(events: seq<LifecycleEvent>, after: string, i: nat) {
    i < |events| && events[i].id == after && forall j :: 0 <= j < i ==> events[j].id != after
  }

  function Listing(events: seq<LifecycleEvent>, after: string, limit: int): (r: seq<LifecycleEvent>)
    ensures |r| <= ClampLimit(limit)
  {
    var start := if after == "" then 0 else StartAfter(events, after);
    FirstOf(if start <= |events| then events[start..] else [], ClampLimit(limit))
  }

  function FirstOf<T>(s: seq<T>, n: nat): seq<T> { if |s| <= n then s else s[..n] }

  class EventRing {
    var events: seq<LifecycleEvent>
    const max: nat
    var seqNo: nat
    ghost var history: seq<LifecycleEvent>

    ghost predicate Valid()
      reads this
    {
      max > 0 && seqNo == |history| && Numbered(history) && events == Buffered(history, max)
    }

    constructor (max: nat)
      requires max > 0
      ensures Valid() && history == [] && this.max == max
    {
      this.max, events, seqNo, history := max, [], 0, [];
    }

    method Add(kind: string, timestamp: string, message: string, details: string) returns (evt: LifecycleEvent)
      requires Valid()
      modifies this
      ensures Valid() && history == old(history) + [evt]
      ensures evt == LifecycleEvent(ItoaNat(|history|), kind, timestamp, message, details)
    {
      seqNo := seqNo + 1;
      var id := Itoa3(seqNo);
      evt := LifecycleEvent(id, kind, timestamp, message, details);
      if |events| >= max {
        events := events[1..];
      }
      events := events + [evt];
      history := history + [evt];
    }

    method List(after: string, limit: int) returns (r: seq<LifecycleEvent>)
      requires Valid()
      ensures r == Listing(events, after, limit)
    {
      var most := ClampLimit(limit);
      var start := 0;
      if after != "" {
        start := FindStart(after);
      }
      r := Page(start, most);
    }

    method Page(start: nat, most: nat) returns (r: seq<LifecycleEvent>)
      requires start <= |events|
      ensures r == FirstOf(events[start..], most)
    {
      r := [];
      var k := start;
      while k < |events| && |r| < most
        invariant start <= k <= |events|
        invariant r == events[start..k] && |r| <= most
      {
        r := r + [events[k]];
        k := k + 1;
      }
    }

    method FindStart(after: string) returns (start: nat)
      ensures start == StartAfter(events, after) && start <= |events|
    {
      StartIsUnique(events, after);
      start := 0;
      for i := 0 to |events|
        invariant start == 0
        invariant forall j :: 0 <= j < i ==> events[j].id != after
      {
        if events[i].id == after {
          start := i + 1;
          assert IsFirst(events, after, i);
          break;
        }
      }
    }
  }

  lemma {:induction false} StartIsUnique(events: seq<LifecycleEvent>, after: string)
    ensures forall i: nat :: IsFirst(events, after, i) ==> StartAfter(events, after) == i + 1
    ensures (forall i :: 0 <= i < |events| ==> events[i].id != after) ==> StartAfter(events, after) == 0
  {
    if events != [] {
      StartIsUnique(events[1..], after);
      forall i: nat | IsFirst(events, after, i) ensures StartAfter(events, after) == i + 1 {
        if i > 0 { assert IsFirst(events[1..], after, i - 1); }
      }
    }
  }

  /** A listing from the id of event c: what is buffered after c, or all of it once c is evicted. */
  lemma ListingAfter(history: seq<LifecycleEvent>, max: nat, c: nat, limit: int)
    requires Numbered(history) && 1 <= c <= |history|
    ensures var gone := Gone(|history|, max);
      Listing(Buffered(history, max), ItoaNat(c), limit) ==
        FirstOf(history[if c < gone then gone else c..], ClampLimit(limit))
  {
    var gone := Gone(|history|, max);
    var events := Buffered(history, max);
    forall i | 0 <= i < |events| ensures events[i].id == ItoaNat(c) <==> gone + i + 1 == c {
      if events[i].id == ItoaNat(c) { ItoaInjective(gone + i + 1, c); }
    }
    StartIsUnique(events, ItoaNat(c));
    if c > gone {
      assert IsFirst(events, ItoaNat(c), c - gone - 1);
      assert events[c - gone..] == history[c..];
    } else {
      assert events[0..] == events;
    }
  }

  /** A cursor no buffered event has, foreign or evicted, lists from the oldest event. */
  lemma UnknownCursorStartsOver(events: seq<LifecycleEvent>, after: string, limit: int)
    requires forall i :: 0 <= i < |events| ==> events[i].id != after
    ensures Listing(events, after, limit) == Listing(events, "", limit)
  {
    StartIsUnique(events, after);
  }

  /**
   In numbers: of n events the last max are buffered, and listed from the oldest or behind event
   c; a limit from 1 to 1000 is kept, any other becomes 100.
   */
  lemma ListingInNumbers(history: seq<LifecycleEvent>, max: nat, c: nat, limit: int)
    requires Numbered(history) && c <= |history|
    ensures var n := |history|;
      var start := if c < n - max then n - max else c;
      var most := if 1 <= limit <= 1000 then limit else 100;
      Listing(Buffered(history, max), if c == 0 then "" else ItoaNat(c), limit) ==
        history[start..if n - start < most then n else start + most]
  {
    if c == 0 {
      assert Buffered(history, max)[0..] == Buffered(history, max);
    } else {
      ListingAfter(history, max, c, limit);
    }
  }

  // ---------- a polling client ----------

  datatype State = State(history: seq<LifecycleEvent>, max: nat, received: seq<LifecycleEvent>)

  datatype Op = Add(kind: string, timestamp: string, message: string, details: string) | Poll(limit: int)

  function Cursor(received: seq<LifecycleEvent>): string {
    if received == [] then "" else received[|received| - 1].id
  }

  function Step(s: State, op: Op): State {
    match op
    case Add(k, t, m, d) =>
      s.(history := s.history + [LifecycleEvent(ItoaNat(|s.history| + 1), k, t, m, d)])
    case Poll(limit) =>
      s.(received := s.received + Listing(Buffered(s.history, s.max), Cursor(s.received), limit))
  }

  function Run(s: State, ops: seq<Op>): State {
    if ops == [] then s else Step(Run(s, ops[..|ops| - 1]), ops[|ops| - 1])
  }

  /** The number of an event that was added. */
  function NumberOf(e: LifecycleEvent): nat { if AllDigits(e.id) then Value(e.id) else 0 }

  function LastSeen(s: State): nat { if s.received == [] then 0 else NumberOf(s.received[|s.received| - 1]) }

  predicate SeenOrGone(s: State, e: int) {
    && 1 <= e <= |s.history|
    && (s.history[e - 1] in s.received || e <= Gone(|s.history|, s.max))
  }

  predicate Inv(s: State) {
    && s.max > 0
    && Numbered(s.history)
    && AllEvents(s.history, s.received)
    && Increasing(s.received)
    && (forall e :: 1 <= e <= LastSeen(s) ==> SeenOrGone(s, e))
  }

  predicate AllEvents(history: seq<LifecycleEvent>, r: seq<LifecycleEvent>) {
    forall i :: 0 <= i < |r| ==> IsEvent(history, r[i])
  }

  predicate Increasing(r: seq<LifecycleEvent>) {
    forall i, j :: 0 <= i < j < |r| ==> NumberOf(r[i]) < NumberOf(r[j])
  }

  predicate IsEvent(history: seq<LifecycleEvent>, e: LifecycleEvent) {
    1 <= NumberOf(e) <= |history| && history[NumberOf(e) - 1] == e
  }

  lemma NumberOfEvent(history: seq<LifecycleEvent>, i: nat)
    requires Numbered(history) && i < |history|
    ensures NumberOf(history[i]) == i + 1
  {
    ValueOfItoa(i + 1);
  }

  /** What a poll returns: the events from `PollStart` on, so all it skips was evicted by then. */
  function PollStart(s: State): nat {
    if LastSeen(s) < Gone(|s.history|, s.max) then Gone(|s.history|, s.max) else LastSeen(s)
  }

  lemma PollReturns(s: State, limit: int)
    requires Inv(s)
    ensures PollStart(s) <= |s.history|
    ensures Listing(Buffered(s.history, s.max), Cursor(s.received), limit) ==
      FirstOf(s.history[PollStart(s)..], ClampLimit(limit))
  {
    if s.received != [] {
      var last := s.received[|s.received| - 1];
      assert IsEvent(s.history, last);
      assert Cursor(s.received) == ItoaNat(NumberOf(last));
      ListingAfter(s.history, s.max, NumberOf(last), limit);
    } else {
      assert Buffered(s.history, s.max)[0..] == s.history[PollStart(s)..];
    }
  }

  lemma FirstOfAt<T>(s: seq<T>, from: nat, n: nat, k: nat)
    requires from <= |s| && k < |FirstOf(s[from..], n)|
    ensures from + k < |s| && FirstOf(s[from..], n)[k] == s[from + k]
  {
  }

  /** Event number k of a poll's reply. */
  lemma PollBatch(s: State, limit: int, k: nat)
    requires Inv(s)
    requires |s.received| + k < |Step(s, Poll(limit)).received|
    ensures PollStart(s) + k < |s.history|
    ensures Step(s, Poll(limit)).received[|s.received| + k] == s.history[PollStart(s) + k]
    ensures NumberOf(s.history[PollStart(s) + k]) == PollStart(s) + k + 1
  {
    PollReturns(s, limit);
    FirstOfAt(s.history, PollStart(s), ClampLimit(limit), k);
    NumberOfEvent(s.history, PollStart(s) + k);
  }

  lemma IncreasingConcat(a: seq<LifecycleEvent>, b: seq<LifecycleEvent>)
    requires Increasing(a) && Increasing(b)
    requires a != [] && b != [] ==> NumberOf(a[|a| - 1]) < NumberOf(b[0])
    ensures Increasing(a + b)
  {
  }

  lemma HistoryIncreases(history: seq<LifecycleEvent>, from: nat, to: nat)
    requires Numbered(history) && from <= to <= |history|
    ensures Increasing(history[from..to])
  {
    forall i | from <= i < to ensures NumberOf(history[i]) == i + 1 { NumberOfEvent(history, i); }
  }

  lemma BatchIncreases(s: State, limit: int, batch: seq<LifecycleEvent>)
    requires Inv(s) && batch == FirstOf(s.history[PollStart(s)..], ClampLimit(limit))
    ensures Increasing(batch) && (batch != [] ==> NumberOf(batch[0]) == PollStart(s) + 1)
  {
    var from := PollStart(s);
    assert batch == s.history[from..from + |batch|];
    HistoryIncreases(s.history, from, from + |batch|);
    if batch != [] { NumberOfEvent(s.history, from); }
  }

  lemma LastIsNoLater(s: State)
    requires Inv(s) && s.received != []
    ensures NumberOf(s.received[|s.received| - 1]) <= PollStart(s)
  {
  }

  lemma PollKeepsOrder(s: State, limit: int)
    requires Inv(s)
    ensures Increasing(Step(s, Poll(limit)).received)
  {
    PollReturns(s, limit);
    var batch := FirstOf(s.history[PollStart(s)..], ClampLimit(limit));
    BatchIncreases(s, limit, batch);
    if s.received != [] { LastIsNoLater(s); }
    IncreasingConcat(s.received, batch);
    assert Step(s, Poll(limit)).received == s.received + batch;
  }

  lemma BatchIsEvents(history: seq<LifecycleEvent>, from: nat, n: nat)
    requires Numbered(history) && from <= |history|
    ensures AllEvents(history, FirstOf(history[from..], n))
  {
    var batch := FirstOf(history[from..], n);
    forall k | 0 <= k < |batch| ensures IsEvent(history, batch[k]) {
      FirstOfAt(history, from, n, k);
      NumberOfEvent(history, from + k);
    }
  }

  lemma EventsConcat(history: seq<LifecycleEvent>, a: seq<LifecycleEvent>, b: seq<LifecycleEvent>)
    requires AllEvents(history, a) && AllEvents(history, b)
    ensures AllEvents(history, a + b)
  {
  }

  lemma PollReturnsEvents(s: State, limit: int)
    requires Inv(s)
    ensures AllEvents(s.history, Step(s, Poll(limit)).received)
  {
    PollReturns(s, limit);
    BatchIsEvents(s.history, PollStart(s), ClampLimit(limit));
    EventsConcat(s.history, s.received, FirstOf(s.history[PollStart(s)..], ClampLimit(limit)));
  }

  lemma LastSeenAfterPoll(s: State, limit: int)
    requires Inv(s)
    ensures var t := Step(s, Poll(limit)); var got := |t.received| - |s.received|;
      got >= 0 && LastSeen(t) == if got == 0 then LastSeen(s) else PollStart(s) + got
  {
    var t, n := Step(s, Poll(limit)), |s.received|;
    if |t.received| == n {
      assert t.received == s.received;
    } else {
      PollBatch(s, limit, |t.received| - n - 1);
    }
  }

  lemma PollKeepsSeen(s: State, limit: int, e: int)
    requires SeenOrGone(s, e)
    ensures SeenOrGone(Step(s, Poll(limit)), e)
  {
  }

  /** Between the old cursor and the new one a poll skips only what is already evicted. */
  lemma PollSkipsOnlyEvicted(s: State, limit: int, e: int)
    requires Inv(s)
    requires 1 <= e <= LastSeen(Step(s, Poll(limit)))
    ensures SeenOrGone(Step(s, Poll(limit)), e)
  {
    var from := PollStart(s);
    LastSeenAfterPoll(s, limit);
    if e <= LastSeen(s) {
      PollKeepsSeen(s, limit, e);
    } else if e > from {
      var k := e - 1 - from;
      PollBatch(s, limit, k);
      assert Step(s, Poll(limit)).received[|s.received| + k] == s.history[e - 1];
    } else {
      PollReturns(s, limit);
    }
  }

  lemma AddKeepsInv(s: State, op: Op)
    requires Inv(s) && op.Add?
    ensures Inv(Step(s, op))
  {
    var t := Step(s, op);
    forall i | 0 <= i < |t.received| ensures IsEvent(t.history, t.received[i]) {
      assert IsEvent(s.history, s.received[i]);
    }
    forall e | 1 <= e <= LastSeen(t) ensures SeenOrGone(t, e) { assert SeenOrGone(s, e); }
  }

  lemma StepKeepsInv(s: State, op: Op)
    requires Inv(s)
    ensures Inv(Step(s, op))
  {
    match op
    case Add(_, _, _, _) => AddKeepsInv(s, op);
    case Poll(limit) =>
      PollKeepsOrder(s, limit);
      PollReturnsEvents(s, limit);
      forall e | 1 <= e <= LastSeen(Step(s, op)) ensures SeenOrGone(Step(s, op), e) {
        PollSkipsOnlyEvicted(s, limit, e);
      }
  }

  /**
   Under any interleaving of adds and polls the client sees events in strictly increasing order,
   so none twice, each of them was added, and below its cursor it misses only evicted ones.
   */
  lemma {:induction false} PollingOverRuns(max: nat, ops: seq<Op>)
    requires max > 0
    ensures Inv(Run(State([], max, []), ops))
  {
    if ops != [] {
      PollingOverRuns(max, ops[..|ops| - 1]);
      StepKeepsInv(Run(State([], max, []), ops[..|ops| - 1]), ops[|ops| - 1]);
    }
  }

  /** A poll that returns less than its limit leaves the client with nothing left to see. */
  lemma ShortPollCatchesUp(s: State, limit: int)
    requires Inv(s)
    requires |Listing(Buffered(s.history, s.max), Cursor(s.received), limit)| < ClampLimit(limit)
    ensures LastSeen(Step(s, Poll(limit))) == |s.history|
  {
    PollReturns(s, limit);
    var t, n := Step(s, Poll(limit)), |s.received|;
    assert |t.received| == n + |s.history| - PollStart(s);
    if PollStart(s) < |s.history| {
      PollBatch(s, limit, |t.received| - n - 1);
    } else {
      assert t.received == s.received;
    }
  }
}
