/**
 A subscriber's outbound queue: a bounded channel whose sender drops the oldest event when it
 is full. `send` is a test and up to three channel operations, so receives, other senders and a
 close can come between them; the step machine below interleaves them in every way.
 */
module Subscribers {
  import opened LogRing

  datatype SubFilter = SubFilter(
    levels: map<string, bool>, components: map<string, bool>, sources: map<string, bool>)

  /** A Go map lookup that yields false for an absent key. */
  predicate Has(m: map<string, bool>, key: string) { key in m && m[key] }

  predicate Matches(f: SubFilter, rec: LogRecord) {
    && (|f.levels| > 0 ==> Has(f.levels, rec.level))
    && (|f.components| > 0 ==> Has(f.components, rec.component))
    && (|f.sources| > 0 ==> Has(f.sources, rec.source))
  }

  /** The queue after an uninterrupted send. */
  function Enqueued<T>(queue: seq<T>, cap: nat, data: T): seq<T>
    requires cap > 0
  {
    if |queue| < cap then queue + [data] else queue[1..] + [data]
  }

  class Subscriber {
    const capacity: nat
    const filters: SubFilter
    var queue: seq<LogRecord>
    var closed: bool

    ghost predicate Valid() reads this { capacity > 0 && |queue| <= capacity }

    constructor (bufferSize: int, filters: SubFilter)
      ensures Valid() && queue == [] && !closed && this.filters == filters
      ensures capacity == if bufferSize <= 0 then 1000 else bufferSize
    {
      capacity := if bufferSize <= 0 then 1000 else bufferSize;
      this.filters, queue, closed := filters, [], false;
    }

    method Send(data: LogRecord) returns (ok: bool)
      requires Valid()
      modifies this`queue
      ensures Valid()
      ensures ok == !closed
      ensures queue == if closed then old(queue) else Enqueued(old(queue), capacity, data)
    {
      if closed {
        return false;
      }
      if |queue| < capacity {
        queue := queue + [data];
        return true;
      }
      if queue != [] {
        queue := queue[1..];
      }
      if |queue| < capacity {
        queue := queue + [data];
        return true;
      }
      ok := false;
    }

    method Close()
      modifies this`closed
      ensures closed
    {
      closed := true;
    }
  }

  // ---------- every interleaving ----------

  /** Where a sender is inside `send`: before it, or about to offer, drop the oldest, or offer again. */
  datatype Sender<T> = Idle | Entered(data: T) | Dropping(data: T) | Retrying(data: T)

  /**
   The channel, its senders, and what has happened to every event so far. The first `locked`
   senders hold the hub's lock while they send, as Run does and Replay does not.
   */
  datatype Channel<T> = Channel(
    queue: seq<T>, cap: nat, closed: bool, senders: seq<Sender<T>>, locked: nat,
    sent: seq<T>, received: seq<T>, discarded: seq<T>, lost: seq<T>, panicked: seq<T>)

  datatype Event<T> =
    | Start(who: nat, data: T)
    | Offer(who: nat)
    | Drop(who: nat)
    | Retry(who: nat)
    | Receive
    | Close

  /** Sending on the channel: a panic if it is closed, else success if it has room. */
  function Put<T>(c: Channel<T>, who: nat, data: T): Channel<T>
    requires who < |c.senders|
  {
    var d := c.(senders := c.senders[who := Idle]);
    if c.closed then d.(panicked := c.panicked + [data])
    else d.(queue := c.queue + [data], sent := c.sent + [data])
  }

  /** One atomic step; an event that is not enabled changes nothing. */
  function Step<T>(c: Channel<T>, e: Event<T>): Channel<T> {
    match e
    case Start(who, data) =>
      if who >= |c.senders| || !c.senders[who].Idle? || c.closed then c
      else c.(senders := c.senders[who := Entered(data)])
    case Offer(who) =>
      if who >= |c.senders| || !c.senders[who].Entered? then c
      else if c.closed || |c.queue| < c.cap then Put(c, who, c.senders[who].data)
      else c.(senders := c.senders[who := Dropping(c.senders[who].data)])
    case Drop(who) =>
      if who >= |c.senders| || !c.senders[who].Dropping? then c
      else
        var d := c.(senders := c.senders[who := Retrying(c.senders[who].data)]);
        if c.queue == [] then d else d.(queue := c.queue[1..], discarded := c.discarded + c.queue[..1])
    case Retry(who) =>
      if who >= |c.senders| || !c.senders[who].Retrying? then c
      else if c.closed || |c.queue| < c.cap then Put(c, who, c.senders[who].data)
      else c.(senders := c.senders[who := Idle], lost := c.lost + [c.senders[who].data])
    case Receive =>
      if c.queue == [] then c
      else c.(queue := c.queue[1..], received := c.received + c.queue[..1])
    case Close =>
      // Unsubscribe and Stop take the lock, so no sender that holds it is inside `send`.
      if forall i :: 0 <= i < |c.senders| && i < c.locked ==> c.senders[i].Idle? then c.(closed := true) else c
  }

  function Run<T>(c: Channel<T>, events: seq<Event<T>>): Channel<T> {
    if events == [] then c
    else Step(Run(c, events[..|events| - 1]), events[|events| - 1])
  }

  function Fresh<T>(cap: nat, producers: nat, locked: nat): Channel<T> {
    Channel([], cap, false, seq(producers, _ => Idle), locked, [], [], [], [], [])
  }

  /** a can be obtained from b by leaving elements out. */
  predicate Subsequence<T(==)>(a: seq<T>, b: seq<T>) {
    a == [] ||
    (b != [] &&
     ((a[|a| - 1] == b[|b| - 1] && Subsequence(a[..|a| - 1], b[..|b| - 1])) || Subsequence(a, b[..|b| - 1])))
  }

  lemma SubsequenceSnoc<T>(a: seq<T>, b: seq<T>, x: T)
    requires Subsequence(a, b)
    ensures Subsequence(a + [x], b + [x])
  {
  }

  lemma MiddleSnoc<T>(p: seq<T>, x: T, q: seq<T>)
    requires q != []
    ensures (p + [x] + q)[..|p + [x] + q| - 1] == p + [x] + q[..|q| - 1]
    ensures p + q == p + q[..|q| - 1] + [q[|q| - 1]]
  {
  }

  lemma {:induction false} SubsequenceWithout<T>(p: seq<T>, x: T, q: seq<T>, b: seq<T>)
    requires Subsequence(p + [x] + q, b)
    ensures Subsequence(p + q, b)
    decreases b
  {
    var n := |b| - 1;
    if Subsequence(p + [x] + q, b[..n]) {
      SubsequenceWithout(p, x, q, b[..n]);
    } else if q == [] {
      assert p + [x] + q == p + [x] && (p + [x])[..|p|] == p && p + q == p;
    } else {
      var m := |q| - 1;
      MiddleSnoc(p, x, q);
      SubsequenceWithout(p, x, q[..m], b[..n]);
      SubsequenceSnoc(p + q[..m], b[..n], q[m]);
      assert b[..n] + [b[n]] == b;
    }
  }

  /** The queue is the most recent part of what was sent, without a hole. */
  ghost predicate QueueIsRecent<T(!new)>(c: Channel<T>) {
    |c.queue| <= |c.sent| && c.queue == c.sent[|c.sent| - |c.queue|..]
  }

  /** Nothing is conjured or vanishes: every event sent was received, discarded or is queued. */
  ghost predicate Accounted<T(!new)>(c: Channel<T>) {
    multiset(c.sent) == multiset(c.received) + multiset(c.discarded) + multiset(c.queue)
  }

  /** What was received and what is queued come in the order they were sent. */
  ghost predicate InOrder<T(!new)>(c: Channel<T>) {
    Subsequence(c.received + c.queue, c.sent)
  }

  ghost predicate Inv<T(!new)>(c: Channel<T>) {
    |c.queue| <= c.cap && QueueIsRecent(c) && InOrder(c) && Accounted(c)
  }

  lemma PutKeepsOrder<T(!new)>(c: Channel<T>, who: nat, data: T)
    requires InOrder(c) && who < |c.senders|
    ensures InOrder(Put(c, who, data))
  {
    SubsequenceSnoc(c.received + c.queue, c.sent, data);
    assert c.received + c.queue + [data] == c.received + (c.queue + [data]);
  }

  lemma PutKeepsRecent<T(!new)>(c: Channel<T>, who: nat, data: T)
    requires QueueIsRecent(c) && who < |c.senders|
    ensures QueueIsRecent(Put(c, who, data))
  {
  }

  lemma PutKeepsAccount<T(!new)>(c: Channel<T>, who: nat, data: T)
    requires Accounted(c) && who < |c.senders|
    ensures Accounted(Put(c, who, data))
  {
  }

  lemma PutKeepsInv<T(!new)>(c: Channel<T>, who: nat, data: T)
    requires Inv(c) && who < |c.senders| && (c.closed || |c.queue| < c.cap)
    ensures Inv(Put(c, who, data))
  {
    PutKeepsOrder(c, who, data);
    PutKeepsRecent(c, who, data);
    PutKeepsAccount(c, who, data);
  }

  /** Sender e.who is about to take step e. */
  predicate Sends<T(!new)>(c: Channel<T>, e: Event<T>) {
    || (e.Offer? && e.who < |c.senders| && c.senders[e.who].Entered?)
    || (e.Retry? && e.who < |c.senders| && c.senders[e.who].Retrying?)
  }

  predicate Takes<T(!new)>(c: Channel<T>, e: Event<T>) {
    c.queue != [] && (e.Receive? || (e.Drop? && e.who < |c.senders| && c.senders[e.who].Dropping?))
  }

  lemma TakeKeepsOrder<T(!new)>(c: Channel<T>, e: Event<T>)
    requires InOrder(c) && Takes(c, e)
    ensures InOrder(Step(c, e))
  {
    var first, rest := c.queue[0], c.queue[1..];
    if e.Receive? {
      assert c.received + c.queue[..1] + rest == c.received + c.queue;
    } else {
      assert c.received + [first] + rest == c.received + c.queue;
      SubsequenceWithout(c.received, first, rest, c.sent);
    }
  }

  lemma TakeKeepsInv<T(!new)>(c: Channel<T>, e: Event<T>)
    requires Inv(c) && Takes(c, e)
    ensures Inv(Step(c, e))
  {
    TakeKeepsOrder(c, e);
    assert c.queue == c.queue[..1] + c.queue[1..];
  }

  lemma StepKeepsInv<T(!new)>(c: Channel<T>, e: Event<T>)
    requires Inv(c)
    ensures Inv(Step(c, e))
  {
    if Sends(c, e) {
      if c.closed || |c.queue| < c.cap { PutKeepsInv(c, e.who, c.senders[e.who].data); }
    } else if Takes(c, e) {
      TakeKeepsInv(c, e);
    }
  }

  /**
   Whatever the interleaving, however many senders and whenever the channel is closed: the
   queue is a contiguous most recent part of what was sent, what was received and what is
   queued come in sending order, and every event sent is received, queued or discarded.
   */
  lemma {:induction false} QueueOverRuns<T(!new)>(cap: nat, producers: nat, locked: nat, events: seq<Event<T>>)
    ensures Inv(Run(Fresh(cap, producers, locked), events))
  {
    if events != [] {
      var n := |events| - 1;
      QueueOverRuns<T>(cap, producers, locked, events[..n]);
      StepKeepsInv(Run(Fresh(cap, producers, locked), events[..n]), events[n]);
    }
  }

  lemma RunSnoc<T>(c: Channel<T>, events: seq<Event<T>>, e: Event<T>)
    ensures Run(c, events + [e]) == Step(Run(c, events), e)
  {
  }

  /** Nothing between its steps, a send by an idle sender is the uninterrupted send of the class. */
  lemma StepsOfSend<T(!new)>(c: Channel<T>, who: nat, data: T)
    requires who < |c.senders| && c.senders[who].Idle? && !c.closed && 0 < c.cap && |c.queue| <= c.cap
    ensures var d := Step(Step(Step(Step(c, Start(who, data)), Offer(who)), Drop(who)), Retry(who));
      && d.queue == Enqueued(c.queue, c.cap, data)
      && d.sent == c.sent + [data] && d.lost == c.lost && d.senders == c.senders
  {
  }

  // ---------- when the event being sent is lost ----------

  /** With one sender, a sender about to offer again finds room. */
  ghost predicate RoomForRetry<T(!new)>(c: Channel<T>) {
    |c.senders| == 1 && c.cap > 0 && |c.queue| <= c.cap && c.lost == [] &&
    (c.senders[0].Retrying? ==> |c.queue| < c.cap)
  }

  lemma StepKeepsRoom<T(!new)>(c: Channel<T>, e: Event<T>)
    requires RoomForRetry(c)
    ensures RoomForRetry(Step(c, e))
  {
  }

  lemma {:induction false} OneProducerLosesNothing<T(!new)>(cap: nat, locked: nat, events: seq<Event<T>>)
    requires cap > 0
    ensures RoomForRetry(Run(Fresh(cap, 1, locked), events))
  {
    if events != [] {
      OneProducerLosesNothing(cap, locked, events[..|events| - 1]);
      StepKeepsRoom(Run(Fresh(cap, 1, locked), events[..|events| - 1]), events[|events| - 1]);
    }
  }

  /** An open channel with n queued events, on which no send is under way. */
  ghost predicate Holds<T(!new)>(c: Channel<T>, n: nat) {
    |c.queue| == n && !c.closed && c.lost == [] && forall i :: 0 <= i < |c.senders| ==> c.senders[i].Idle?
  }

  lemma SendWithRoom<T(!new)>(c: Channel<T>, x: T)
    requires Holds(c, |c.queue|) && |c.queue| < c.cap && c.senders != []
    ensures var d := Step(Step(c, Start(0, x)), Offer(0));
      Holds(d, |c.queue| + 1) && d.cap == c.cap && |d.senders| == |c.senders|
  {
  }

  /** Some run fills a channel to any level. */
  lemma {:induction false} Filling<T(!new)>(cap: nat, producers: nat, locked: nat, x: T, n: nat)
    returns (events: seq<Event<T>>)
    requires n <= cap && producers > 0
    ensures var c := Run(Fresh(cap, producers, locked), events);
      Holds(c, n) && c.cap == cap && |c.senders| == producers
  {
    events := [];
    if n > 0 {
      var c := Fresh<T>(cap, producers, locked);
      events := Filling(cap, producers, locked, x, n - 1);
      RunSnoc(c, events, Start(0, x));
      RunSnoc(c, events + [Start(0, x)], Offer(0));
      SendWithRoom(Run(c, events), x);
      events := events + [Start(0, x)] + [Offer(0)];
    }
  }

  /** A full channel on which sender 0 has dropped the oldest event and sender 1 took its place. */
  lemma SecondSenderTakesThePlace<T(!new)>(c: Channel<T>, x: T) returns (d: Channel<T>)
    requires Holds(c, c.cap) && c.cap > 0 && |c.senders| >= 2
    ensures d == Step(Step(Step(Step(Step(c, Start(0, x)), Offer(0)), Drop(0)), Start(1, x)), Offer(1))
    ensures |d.queue| == d.cap && !d.closed && |d.senders| >= 2 && d.senders[0] == Retrying(x) && d.lost == []
  {
    var c1 := Step(Step(Step(c, Start(0, x)), Offer(0)), Drop(0));
    assert |c1.queue| == c.cap - 1 && c1.senders[0] == Retrying(x) && c1.senders[1].Idle?;
    d := Step(Step(c1, Start(1, x)), Offer(1));
  }

  /** The run that loses an event: between sender 0's drop and its second offer, sender 1 sends. */
  lemma Collision<T(!new)>(cap: nat, producers: nat, locked: nat, x: T) returns (events: seq<Event<T>>)
    requires cap > 0 && producers >= 2
    ensures Run(Fresh(cap, producers, locked), events).lost == [x]
  {
    var c := Fresh<T>(cap, producers, locked);
    events := Filling(cap, producers, locked, x, cap);
    var d := SecondSenderTakesThePlace(Run(c, events), x);
    RunSnoc(c, events, Start(0, x));
    events := events + [Start(0, x)];
    RunSnoc(c, events, Offer(0));
    events := events + [Offer(0)];
    RunSnoc(c, events, Drop(0));
    events := events + [Drop(0)];
    RunSnoc(c, events, Start(1, x));
    events := events + [Start(1, x)];
    RunSnoc(c, events, Offer(1));
    events := events + [Offer(1)];
    RunSnoc(c, events, Retry(0));
    events := events + [Retry(0)];
  }

  /** On a queue of any size `send` can lose the event it was given iff a second sender can be inside it. */
  lemma LossIffTwoProducers<T(!new)>(cap: nat, producers: nat, locked: nat, x: T)
    requires cap > 0 && producers > 0
    ensures (exists events :: Run(Fresh<T>(cap, producers, locked), events).lost != []) <==> producers >= 2
  {
    if producers >= 2 {
      var events := Collision(cap, producers, locked, x);
    } else {
      forall events ensures Run(Fresh<T>(cap, producers, locked), events).lost == [] {
        OneProducerLosesNothing<T>(cap, locked, events);
      }
    }
  }

  // ---------- when a send meets a closed channel ----------

  /** Once the channel is closed, no send is under way. */
  ghost predicate CloseWaits<T(!new)>(c: Channel<T>) {
    && |c.senders| <= c.locked && c.panicked == []
    && (c.closed ==> forall i :: 0 <= i < |c.senders| ==> c.senders[i].Idle?)
  }

  lemma StepKeepsCloseWaits<T(!new)>(c: Channel<T>, e: Event<T>)
    requires CloseWaits(c)
    ensures CloseWaits(Step(c, e))
  {
  }

  lemma {:induction false} LockedSendersNeverPanic<T(!new)>(
    cap: nat, producers: nat, locked: nat, events: seq<Event<T>>)
    requires producers <= locked
    ensures CloseWaits(Run(Fresh(cap, producers, locked), events))
  {
    if events != [] {
      LockedSendersNeverPanic(cap, producers, locked, events[..|events| - 1]);
      StepKeepsCloseWaits(Run(Fresh(cap, producers, locked), events[..|events| - 1]), events[|events| - 1]);
    }
  }

  /** A send between its closed test and its offer when the channel is closed. */
  lemma ClosedUnderASend<T(!new)>(cap: nat, producers: nat, locked: nat, x: T) returns (events: seq<Event<T>>)
    requires locked < producers
    ensures Run(Fresh(cap, producers, locked), events).panicked == [x]
  {
    var c := Fresh<T>(cap, producers, locked);
    var start := [Start(locked, x)];
    assert [] + start == start;
    RunSnoc(c, [], Start(locked, x));
    RunSnoc(c, start, Close);
    RunSnoc(c, start + [Close], Offer(locked));
    events := start + [Close] + [Offer(locked)];
  }

  /** Some run sends on a closed channel, which panics, iff some sender does not hold the lock. */
  lemma PanicIffUnlockedSender<T(!new)>(cap: nat, producers: nat, locked: nat, x: T)
    ensures (exists events :: Run(Fresh<T>(cap, producers, locked), events).panicked != []) <==> locked < producers
  {
    if locked < producers {
      var events := ClosedUnderASend(cap, producers, locked, x);
    } else {
      forall events ensures Run(Fresh<T>(cap, producers, locked), events).panicked == [] {
        LockedSendersNeverPanic<T>(cap, producers, locked, events);
      }
    }
  }
}
