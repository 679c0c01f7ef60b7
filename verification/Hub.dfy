/**
 The hub between the log ring and its subscribers: a lossy notification channel whose reader
 catches up from the ring. The class is the code; the step machine below it interleaves the
 writer with the reader and carries the theorem that no notified record is lost.
 */
module LogHub {
  import opened Wrappers
  import opened LogRing
  import opened Subscribers

  const NOTIFY_CAP := 256

  /** The notification channel after a Notify: a full channel drops the notification. */
  function Notified(pending: seq<int>, s: int): seq<int> {
    if |pending| < NOTIFY_CAP then pending + [s] else pending
  }

  /** A subscriber's queue after the records that match its filter were sent to it. */
  function Delivered(queue: seq<LogRecord>, cap: nat, f: SubFilter, records: seq<LogRecord>): seq<LogRecord>
    requires cap > 0
  {
    if records == [] then queue
    else
      var n := |records| - 1;
      Offered(Delivered(queue, cap, f, records[..n]), cap, f, records[n])
  }

  function Offered(queue: seq<LogRecord>, cap: nat, f: SubFilter, rec: LogRecord): seq<LogRecord>
    requires cap > 0
  {
    if Matches(f, rec) then Enqueued(queue, cap, rec) else queue
  }

  /** The next key of a `range` over a map: any of those not visited yet. */
  method AnyOf<T(==)>(keys: set<T>) returns (key: T)
    requires keys != {}
    ensures key in keys
  {
    key :| key in keys;
  }

  class Hub {
    const ring: Ring
    var notifyCh: seq<int>
    var subscribers: map<int, Subscriber>
    var nextID: nat

    ghost predicate Valid()
      reads this, ring, ring.records, subscribers.Values
    {
      && ring.Valid()
      && |notifyCh| <= NOTIFY_CAP
      && (forall id :: id in subscribers ==> subscribers[id].Valid() && !subscribers[id].closed && id <= nextID)
      && (forall i, j :: i in subscribers && j in subscribers && i != j ==> subscribers[i] != subscribers[j])
    }

    constructor (ring: Ring)
      requires ring.Valid()
      ensures Valid() && this.ring == ring && notifyCh == [] && subscribers == map[]
    {
      this.ring, notifyCh, subscribers, nextID := ring, [], map[], 0;
    }

    /** Registers a subscriber; the second result is the last sequence number written so far. */
    method Subscribe(filter: SubFilter) returns (sub: Subscriber, last: int)
      requires Valid()
      modifies this`subscribers, this`nextID
      ensures Valid() && fresh(sub) && sub.queue == [] && sub.filters == filter && sub.capacity == 1000
      ensures nextID == old(nextID) + 1 && subscribers == old(subscribers)[nextID := sub]
      ensures last == |ring.history|
    {
      sub := new Subscriber(1000, filter);
      nextID := nextID + 1;
      subscribers := subscribers[nextID := sub];
      last := ring.NextSeq() - 1;
    }

    method Unsubscribe(id: int)
      requires Valid()
      modifies this`subscribers, subscribers.Values
      ensures Valid() && subscribers == old(subscribers) - {id}
      ensures id in old(subscribers) ==> old(subscribers)[id].closed
      ensures forall k :: k in subscribers ==> subscribers[k].queue == old(subscribers[k].queue)
    {
      if id in subscribers {
        var sub := subscribers[id];
        subscribers := subscribers - {id};
        sub.Close();
      } else {
        assert subscribers - {id} == subscribers;
      }
    }

    method Notify(s: int)
      requires Valid()
      modifies this`notifyCh
      ensures Valid() && notifyCh == Notified(old(notifyCh), s)
      ensures notifyCh == if |old(notifyCh)| < 256 then old(notifyCh) + [s] else old(notifyCh)
    {
      if |notifyCh| < NOTIFY_CAP {
        notifyCh := notifyCh + [s];
      }
    }

    /** One turn of Run's loop: the oldest notification is fanned out. */
    method RunOnce()
      requires Valid() && notifyCh != []
      modifies this`notifyCh, subscribers.Values
      ensures Valid() && notifyCh == old(notifyCh)[1..] && subscribers == old(subscribers)
      ensures forall id :: id in subscribers ==>
        subscribers[id].queue == Delivered(old(subscribers[id].queue), subscribers[id].capacity,
          subscribers[id].filters, Suffix(ring.history, ring.records.Length, old(notifyCh)[0] - 1))
    {
      var s := notifyCh[0];
      notifyCh := notifyCh[1..];
      Fanout(s);
    }

    /** Every subscriber gets every matching record still in the ring from `afterSeq` on. */
    method Fanout(afterSeq: int)
      requires Valid()
      modifies subscribers.Values
      ensures Valid()
      ensures forall id :: id in subscribers ==>
        subscribers[id].queue == Delivered(old(subscribers[id].queue), subscribers[id].capacity,
          subscribers[id].filters, Suffix(ring.history, ring.records.Length, afterSeq - 1))
    {
      var records := ring.Since(afterSeq - 1);
      if records == [] {
        return;
      }
      for i := 0 to |records|
        invariant Valid()
        invariant forall id :: id in subscribers ==>
          subscribers[id].queue == Delivered(old(subscribers[id].queue), subscribers[id].capacity,
            subscribers[id].filters, records[..i])
      {
        assert records[..i + 1][..i] == records[..i];
        SendToAll(records[i]);
      }
      assert records[..|records|] == records;
    }

    method SendToAll(rec: LogRecord)
      requires Valid()
      modifies subscribers.Values
      ensures Valid()
      ensures forall id :: id in subscribers ==>
        subscribers[id].queue ==
          Offered(old(subscribers[id].queue), subscribers[id].capacity, subscribers[id].filters, rec)
    {
      var todo: set<int> := subscribers.Keys;
      while todo != {}
        invariant todo <= subscribers.Keys
        invariant Valid()
        invariant forall id :: id in todo ==> subscribers[id].queue == old(subscribers[id].queue)
        invariant forall id :: id in subscribers && id !in todo ==>
          subscribers[id].queue ==
            Offered(old(subscribers[id].queue), subscribers[id].capacity, subscribers[id].filters, rec)
        decreases todo
      {
        var id := AnyOf(todo);
        todo := todo - {id};
        if Matches(subscribers[id].filters, rec) {
          var ok := subscribers[id].Send(rec);
        }
      }
    }

    /** Last-Event-ID replay: one subscriber gets the matching records after its
     cursor, unless it is closed. */
    method Replay(sub: Subscriber, afterSeq: int)
      requires ring.Valid() && sub.Valid()
      modifies sub`queue
      ensures sub.Valid()
      ensures sub.queue == if sub.closed then old(sub.queue)
        else Delivered(old(sub.queue), sub.capacity, sub.filters, Suffix(ring.history, ring.records.Length, afterSeq))
    {
      var records := ring.Since(afterSeq);
      for i := 0 to |records|
        invariant sub.Valid()
        invariant sub.queue == if sub.closed then old(sub.queue)
          else Delivered(old(sub.queue), sub.capacity, sub.filters, records[..i])
      {
        assert records[..i + 1][..i] == records[..i];
        if Matches(sub.filters, records[i]) {
          var ok := sub.Send(records[i]);
        }
      }
      assert records[..|records|] == records;
    }
  }

  /** The records that match, in order. */
  function Matching(f: SubFilter, records: seq<LogRecord>): seq<LogRecord> {
    if records == [] then []
    else
      var n := |records| - 1;
      Matching(f, records[..n]) + (if Matches(f, records[n]) then [records[n]] else [])
  }

  function LastOf<T>(s: seq<T>, n: nat): seq<T> { if |s| <= n then s else s[|s| - n..] }

  lemma EnqueuedIsLast<T>(all: seq<T>, cap: nat, x: T)
    requires cap > 0
    ensures Enqueued(LastOf(all, cap), cap, x) == LastOf(all + [x], cap)
  {
  }

  /**
   Delivery keeps the most recent events and their order: the queue becomes the last ones of
   what it held followed by every matching record, as many as it has places.
   */
  lemma {:induction false} DeliveredIsMostRecent(queue: seq<LogRecord>, cap: nat, f: SubFilter, records: seq<LogRecord>)
    requires cap > 0 && |queue| <= cap
    ensures Delivered(queue, cap, f, records) == LastOf(queue + Matching(f, records), cap)
  {
    if records == [] {
      assert queue + [] == queue;
    } else {
      var n := |records| - 1;
      var before := Matching(f, records[..n]);
      DeliveredIsMostRecent(queue, cap, f, records[..n]);
      if Matches(f, records[n]) {
        EnqueuedIsLast(queue + before, cap, records[n]);
        assert queue + (before + [records[n]]) == queue + before + [records[n]];
      } else {
        assert before + [] == before;
      }
    }
  }

  lemma {:induction false} MatchingHas(f: SubFilter, records: seq<LogRecord>, rec: LogRecord)
    ensures rec in Matching(f, records) <==> rec in records && Matches(f, rec)
  {
    if records != [] {
      var n := |records| - 1;
      MatchingHas(f, records[..n], rec);
      assert records == records[..n] + [records[n]];
    }
  }

  /**
   A fresh subscriber with room for all receives exactly the records whose level, component and
   source its filters admit, each filter looking at its own field and an empty one admitting all.
   */
  lemma FilterSelects(cap: nat, f: SubFilter, records: seq<LogRecord>, rec: LogRecord)
    requires 0 < cap && |records| <= cap
    ensures rec in Delivered([], cap, f, records) <==>
      && rec in records
      && (f.levels == map[] || (rec.level in f.levels && f.levels[rec.level]))
      && (f.components == map[] || (rec.component in f.components && f.components[rec.component]))
      && (f.sources == map[] || (rec.source in f.sources && f.sources[rec.source]))
  {
    DeliveredIsMostRecent([], cap, f, records);
    MatchingIsShorter(f, records);
    assert [] + Matching(f, records) == Matching(f, records);
    MatchingHas(f, records, rec);
  }

  lemma {:induction false} MatchingIsShorter(f: SubFilter, records: seq<LogRecord>)
    ensures |Matching(f, records)| <= |records|
  {
    if records != [] { MatchingIsShorter(f, records[..|records| - 1]); }
  }

  // ---------- the writer against the reader ----------

  /**
   `written` records are in the ring's history, the first `notified` of them have been passed
   to Notify, `inHand` is a notification Run has taken and not yet fanned out, and `fanned` is
   the set of sequence numbers fanned out so far.
   */
  datatype State = State(
    cap: nat, written: nat, notified: nat, pending: seq<int>, inHand: Option<int>, fanned: set<int>)

  datatype Event = Write | Notify | Take | FanOut

  /** One writer does Write then Notify; Run takes a notification and then reads the ring. */
  function Step(s: State, e: Event): State {
    match e
    case Write => if s.notified == s.written then s.(written := s.written + 1) else s
    case Notify =>
      if s.notified < s.written then s.(notified := s.written, pending := Notified(s.pending, s.written)) else s
    case Take =>
      if s.inHand == None && s.pending != [] then s.(inHand := Some(s.pending[0]), pending := s.pending[1..]) else s
    case FanOut =>
      if s.inHand == None then s
      else s.(inHand := None, fanned := s.fanned + Batch(s, s.inHand.value))
  }

  /** The sequence numbers a fan-out from p reads off the ring. */
  function Batch(s: State, p: int): set<int> {
    set r | Overwritten(s.written, s.cap) < r <= s.written && Sends(s, p, r)
  }

  predicate Sends(s: State, p: int, r: int) {
    p <= r <= s.written && r > Overwritten(s.written, s.cap)
  }

  /** The batch is what Hub.Fanout sends. */
  lemma BatchIsSuffix(s: State, history: seq<LogRecord>, p: int)
    requires Numbered(history) && s.written == |history|
    ensures Batch(s, p) == set r | r in Suffix(history, s.cap, p - 1) :: r.seqNo
  {
    SuffixIsExact(history, s.cap, p - 1);
    var suffix := Suffix(history, s.cap, p - 1);
    forall q | q in Batch(s, p) ensures q in set r | r in Suffix(history, s.cap, p - 1) :: r.seqNo {
      assert Sends(s, p, q);
      assert history[q - 1] in suffix;
    }
  }

  function Run(s: State, events: seq<Event>): State {
    if events == [] then s else Step(Run(s, events[..|events| - 1]), events[|events| - 1])
  }

  function Initial(cap: nat): State { State(cap, 0, 0, [], None, {}) }

  /** The notifications on their way, oldest first. */
  function OnTheWay(s: State): seq<int> {
    (if s.inHand.Some? then [s.inHand.value] else []) + s.pending
  }

  /** Record r was fanned out, or a notification at or below it is on its way, or it is overwritten. */
  predicate Covered(s: State, r: int) {
    || r in s.fanned
    || (OnTheWay(s) != [] && OnTheWay(s)[0] <= r)
    || r <= Overwritten(s.written, s.cap)
  }

  /** Strictly increasing, from 1 up to `last`. */
  predicate Ascending(q: seq<int>, last: int) {
    && (forall i, j :: 0 <= i < j < |q| ==> q[i] < q[j])
    && (forall i :: 0 <= i < |q| ==> 1 <= q[i] <= last)
  }

  predicate AllCovered(s: State) {
    forall r :: 1 <= r <= s.notified ==> Covered(s, r)
  }

  /** Below a record that was fanned out, only overwritten records are missing. */
  predicate NoHole(s: State) {
    forall r, q :: r in s.fanned && 1 <= q < r ==> Reached(s, q)
  }

  predicate Reached(s: State, q: int) {
    q in s.fanned || q <= Overwritten(s.written, s.cap)
  }

  predicate Inv(s: State) {
    && s.notified <= s.written <= s.notified + 1
    && |s.pending| <= NOTIFY_CAP
    && Ascending(OnTheWay(s), s.notified)
    && AllCovered(s)
    && NoHole(s)
  }

  lemma AscendingSnoc(q: seq<int>, last: int, next: int)
    requires Ascending(q, last) && 0 <= last < next
    ensures Ascending(q + [next], next)
  {
  }

  lemma AscendingTail(q: seq<int>, last: int)
    requires Ascending(q, last) && q != []
    ensures Ascending(q[1..], last)
  {
  }

  lemma WriteKeepsInv(s: State)
    requires Inv(s) && s.notified == s.written
    ensures Inv(Step(s, Write))
  {
    var t := Step(s, Write);
    assert OnTheWay(t) == OnTheWay(s);
    assert Overwritten(s.written, s.cap) <= Overwritten(t.written, t.cap);
    forall r | 1 <= r <= t.notified ensures Covered(t, r) { assert Covered(s, r); }
    forall r, q | r in t.fanned && 1 <= q < r ensures Reached(t, q) { assert Reached(s, q); }
  }

  lemma NotifyCovers(s: State)
    requires Inv(s) && s.notified < s.written
    ensures AllCovered(Step(s, Notify))
  {
    var t := Step(s, Notify);
    if |s.pending| < NOTIFY_CAP { assert OnTheWay(t) == OnTheWay(s) + [s.written]; }
    assert OnTheWay(t)[0] <= s.written;
    forall r | 1 <= r <= t.notified ensures Covered(t, r) {
      if r < t.notified { assert Covered(s, r); }
    }
  }

  lemma NotifyKeepsInv(s: State)
    requires Inv(s) && s.notified < s.written
    ensures Inv(Step(s, Notify))
  {
    var t := Step(s, Notify);
    NotifyCovers(s);
    AscendingSnoc(OnTheWay(s), s.notified, s.written);
    if |s.pending| < NOTIFY_CAP { assert OnTheWay(t) == OnTheWay(s) + [s.written]; }
    forall r, q | r in t.fanned && 1 <= q < r ensures Reached(t, q) { assert Reached(s, q); }
  }

  lemma TakeKeepsInv(s: State)
    requires Inv(s) && s.inHand == None && s.pending != []
    ensures Inv(Step(s, Take))
  {
    var t := Step(s, Take);
    assert OnTheWay(t) == OnTheWay(s);
    forall r | 1 <= r <= t.notified ensures Covered(t, r) { assert Covered(s, r); }
    forall r, q | r in t.fanned && 1 <= q < r ensures Reached(t, q) { assert Reached(s, q); }
  }

  lemma FanOutCovers(s: State)
    requires Inv(s) && s.inHand.Some?
    ensures AllCovered(Step(s, FanOut))
  {
    var t, p := Step(s, FanOut), s.inHand.value;
    assert OnTheWay(s)[0] == p;
    forall r | 1 <= r <= t.notified ensures Covered(t, r) {
      assert Covered(s, r);
      if p <= r { assert Sends(s, p, r) || r <= Overwritten(s.written, s.cap); }
    }
  }

  lemma FanOutLeavesNoHoleBelow(s: State, r: int, q: int)
    requires Inv(s) && s.inHand.Some? && r in Step(s, FanOut).fanned && 1 <= q < r
    ensures Reached(Step(s, FanOut), q)
  {
    var p := s.inHand.value;
    assert OnTheWay(s)[0] == p;
    if r in s.fanned {
      assert Reached(s, q);
    } else if q < p {
      assert p <= s.notified && Covered(s, q);
    } else {
      assert Sends(s, p, r);
      assert Sends(s, p, q) || q <= Overwritten(s.written, s.cap);
    }
  }

  lemma FanOutKeepsInv(s: State)
    requires Inv(s) && s.inHand.Some?
    ensures Inv(Step(s, FanOut))
  {
    var t := Step(s, FanOut);
    FanOutCovers(s);
    forall r, q | r in t.fanned && 1 <= q < r ensures Reached(t, q) {
      FanOutLeavesNoHoleBelow(s, r, q);
    }
    assert OnTheWay(t) == OnTheWay(s)[1..];
    AscendingTail(OnTheWay(s), s.notified);
  }

  lemma StepKeepsInv(s: State, e: Event)
    requires Inv(s)
    ensures Inv(Step(s, e))
  {
    match e
    case Write => if s.notified == s.written { WriteKeepsInv(s); }
    case Notify => if s.notified < s.written { NotifyKeepsInv(s); }
    case Take => if s.inHand == None && s.pending != [] { TakeKeepsInv(s); }
    case FanOut => if s.inHand.Some? { FanOutKeepsInv(s); }
  }

  lemma {:induction false} RunKeepsInv(cap: nat, events: seq<Event>)
    ensures Inv(Run(Initial(cap), events)) && Run(Initial(cap), events).cap == cap
  {
    if events != [] {
      RunKeepsInv(cap, events[..|events| - 1]);
      StepKeepsInv(Run(Initial(cap), events[..|events| - 1]), events[|events| - 1]);
    }
  }

  /**
   No lost fan-out: in every reachable state each notified record was fanned out, or a
   notification at or below it is on its way, or it was overwritten in the ring, however many
   notifications a full channel dropped.
   */
  lemma NoLostFanOut(cap: nat, events: seq<Event>, r: int)
    ensures var s := Run(Initial(cap), events); 1 <= r <= s.notified ==> Covered(s, r)
  {
    RunKeepsInv(cap, events);
  }

  /** A drained hub has fanned out every notified record that is still in the ring. */
  lemma DrainedHubIsCaughtUp(cap: nat, events: seq<Event>, r: int)
    requires var s := Run(Initial(cap), events);
      OnTheWay(s) == [] && Overwritten(s.written, cap) < r <= s.notified
    ensures r in Run(Initial(cap), events).fanned
  {
    RunKeepsInv(cap, events);
    assert Covered(Run(Initial(cap), events), r);
  }

  /** Fan-out never skips a record that is still there: what is missing below was overwritten. */
  lemma FanOutLeavesNoHole(cap: nat, events: seq<Event>, r: int, q: int)
    requires var s := Run(Initial(cap), events); r in s.fanned && 1 <= q < r && q !in s.fanned
    ensures q <= Overwritten(Run(Initial(cap), events).written, cap)
  {
    RunKeepsInv(cap, events);
    assert Reached(Run(Initial(cap), events), q);
  }

  /** The first record a fan-out from p can read off the ring. */
  function FirstRead(s: State, p: int): int {
    if p > Overwritten(s.written, s.cap) then p else Overwritten(s.written, s.cap) + 1
  }

  /**
   In every reachable state, the fan-out about to happen sends some record again iff the first
   record it will read was sent before.
   */
  lemma SentTwiceIff(cap: nat, events: seq<Event>, p: int)
    requires Run(Initial(cap), events).inHand == Some(p)
    ensures var s := Run(Initial(cap), events);
      (exists r :: r in Batch(s, p) && r in s.fanned) <==> FirstRead(s, p) <= s.written && FirstRead(s, p) in s.fanned
  {
    var s := Run(Initial(cap), events);
    var f := FirstRead(s, p);
    RunKeepsInv(cap, events);
    assert OnTheWay(s)[0] == p;
    if r :| r in Batch(s, p) && r in s.fanned {
      assert Sends(s, p, r);
      assert r == f || Reached(s, f);
    }
    if f <= s.written && f in s.fanned { assert Sends(s, p, f); }
  }

  /** The shortest run that sends a record twice: the second notification lags behind a fan-out. */
  lemma RecordTwoIsSentTwice(cap: nat)
    requires cap >= 2
    ensures var s := Run(Initial(cap), [Write, Notify, Write, Notify, Take, FanOut, Take]);
      s.inHand == Some(2) && 2 in s.fanned && 2 in Batch(s, 2)
  {
    var s := Initial(cap);
    var e1 := [Write];
    var e2, e3, e4 := e1 + [Notify], e1 + [Notify] + [Write], e1 + [Notify] + [Write] + [Notify];
    var e5, e6 := e4 + [Take], e4 + [Take] + [FanOut];
    assert e6 + [Take] == [Write, Notify, Write, Notify, Take, FanOut, Take];
    assert Run(s, e1) == s.(written := 1) by { assert e1[..0] == []; }
    RunSnoc(s, e1, Notify);
    RunSnoc(s, e2, Write);
    RunSnoc(s, e3, Notify);
    RunSnoc(s, e4, Take);
    assert Sends(Run(s, e5), 1, 2);
    RunSnoc(s, e5, FanOut);
    RunSnoc(s, e6, Take);
    assert Sends(Run(s, e6 + [Take]), 2, 2);
  }

  lemma RunSnoc(s: State, events: seq<Event>, e: Event)
    ensures Run(s, events + [e]) == Step(Run(s, events), e)
  {
  }
}
