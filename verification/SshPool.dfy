/**
 The SSH session pool: at most three sessions on one client, dialled on demand, with two
 reconnects inside a single acquisition. Dialling, opening a session and the keepalive are
 replaced by arbitrary outcomes; what is opened and closed is recorded to account for it.
 */
module SshPool {
  import opened Wrappers

  const MAX_SESSIONS := 3
  /** Thirty seconds, in nanoseconds. */
  const IDLE_TIMEOUT: int := 30_000_000_000

  datatype PoolError = PoolClosed | PoolExhausted | DialFailed | OpenFailed | ValidationFailed

  /** How the attempts inside one acquisition turn out, in the order they can be made. */
  datatype Outcomes = Outcomes(
    dial1: bool, open1: bool, dial2: bool, open2: bool, alive: bool, dial3: bool, open3: bool, alive3: bool)

  /** The pool's fields, and the clients and sessions that ever existed. */
  datatype Pool = Pool(
    client: Option<nat>, sessions: set<nat>, closed: bool, lastUsed: int,
    nextId: nat, dialled: set<nat>, closedClients: set<nat>, created: set<nat>, closedSessions: set<nat>)

  type Acquired = (Pool, Result<nat, PoolError>)

  function EnsureClient(p: Pool, dialOk: bool): Pool {
    if p.client.Some? || !dialOk then p
    else p.(client := Some(p.nextId), dialled := p.dialled + {p.nextId}, nextId := p.nextId + 1)
  }

  function CloseClient(p: Pool): Pool {
    if p.client.None? then p
    else p.(client := None, closedClients := p.closedClients + {p.client.value})
  }

  function OpenSession(p: Pool): Pool {
    p.(created := p.created + {p.nextId}, nextId := p.nextId + 1)
  }

  function CloseSession(p: Pool, s: nat): Pool {
    p.(closedSessions := p.closedSessions + {s})
  }

  /** Track a session that passed validation. */
  function Track(p: Pool, s: nat, now: int): Acquired {
    (p.(sessions := p.sessions + {s}, lastUsed := now), Ok(s))
  }

  /** From a fresh session on: validate it, and on failure reconnect once. */
  function Validated(p: Pool, s: nat, o: Outcomes, now: int): Acquired {
    if o.alive then Track(p, s, now)
    else
      var q := EnsureClient(CloseClient(CloseSession(p, s)), o.dial3);
      if q.client.None? then (q, Err(DialFailed))
      else if !o.open3 then (q, Err(OpenFailed))
      else if !o.alive3 then (CloseSession(OpenSession(q), q.nextId), Err(ValidationFailed))
      else Track(OpenSession(q), q.nextId, now)
  }

  function Acquire(p: Pool, o: Outcomes, now: int): Acquired {
    if p.closed then (p, Err(PoolClosed))
    else if |p.sessions| >= MAX_SESSIONS then (p, Err(PoolExhausted))
    else
      var q := EnsureClient(p, o.dial1);
      if q.client.None? then (q, Err(DialFailed))
      else if o.open1 then Validated(OpenSession(q), q.nextId, o, now)
      else
        var r := EnsureClient(CloseClient(q), o.dial2);
        if r.client.None? then (r, Err(DialFailed))
        else if !o.open2 then (r, Err(OpenFailed))
        else Validated(OpenSession(r), r.nextId, o, now)
  }

  function Released(p: Pool, s: nat): Pool {
    CloseSession(p.(sessions := p.sessions - {s}), s)
  }

  function Shut(p: Pool): Pool {
    if p.closed then p
    else CloseClient(p.(closed := true, closedSessions := p.closedSessions + p.sessions, sessions := {}))
  }

  function Swept(p: Pool, now: int): Pool {
    if !p.closed && p.client.Some? && |p.sessions| == 0 && now - p.lastUsed > IDLE_TIMEOUT then CloseClient(p) else p
  }

  // ---------- the class ----------

  class SessionPool {
    var client: Option<nat>
    var sessions: set<nat>
    var closed: bool
    var lastUsed: int
    ghost var nextId: nat
    ghost var dialled: set<nat>
    ghost var closedClients: set<nat>
    ghost var created: set<nat>
    ghost var closedSessions: set<nat>

    ghost function AsPool(): Pool
      reads this
    {
      Pool(client, sessions, closed, lastUsed, nextId, dialled, closedClients, created, closedSessions)
    }

    constructor (now: int)
      ensures AsPool() == Pool(None, {}, false, now, 0, {}, {}, {}, {})
    {
      client, sessions, closed, lastUsed := None, {}, false, now;
      nextId, dialled, closedClients, created, closedSessions := 0, {}, {}, {}, {};
    }

    /** Dials if there is no client; `id` names the client a successful dial returns. */
    method DialIfNeeded(ok: bool, id: nat) returns (connected: bool)
      requires id == nextId
      modifies this
      ensures AsPool() == EnsureClient(old(AsPool()), ok)
      ensures connected == client.Some?
    {
      if client.Some? {
        return true;
      }
      if !ok {
        return false;
      }
      client := Some(id);
      dialled, nextId := dialled + {id}, nextId + 1;
      connected := true;
    }

    method DropClient()
      modifies this
      ensures AsPool() == CloseClient(old(AsPool()))
    {
      if client.Some? {
        closedClients := closedClients + {client.value};
        client := None;
      }
    }

    /** Session: `ids` are the names that dials and opened sessions get, in order. */
    method Session(o: Outcomes, now: int, ids: seq<nat>) returns (r: Result<nat, PoolError>)
      requires |ids| == 5 && forall i :: 0 <= i < 5 ==> ids[i] == nextId + i
      modifies this
      ensures (AsPool(), r) == Acquire(old(AsPool()), o, now)
    {
      if closed {
        return Err(PoolClosed);
      }
      if |sessions| >= MAX_SESSIONS {
        return Err(PoolExhausted);
      }
      ghost var start := nextId;
      var next := if client.None? && o.dial1 then 1 else 0;
      var connected := DialIfNeeded(o.dial1, ids[0]);
      if !connected {
        return Err(DialFailed);
      }
      if !o.open1 {
        DropClient();
        connected := DialIfNeeded(o.dial2, ids[next]);
        if !connected {
          return Err(DialFailed);
        }
        next := next + 1;
        if !o.open2 {
          return Err(OpenFailed);
        }
      }
      assert nextId == start + next && ids[next] == nextId;
      r := Validate(ids[next], ids[next + 1..], o, now);
    }

    /** The second half of Session, once a session named `sess` can be opened. */
    method Validate(sess: nat, ids: seq<nat>, o: Outcomes, now: int) returns (r: Result<nat, PoolError>)
      requires sess == nextId && |ids| >= 2 && ids[0] == nextId + 1 && ids[1] == nextId + 2
      modifies this
      ensures (AsPool(), r) == Validated(OpenSession(old(AsPool())), sess, o, now)
    {
      var s := sess;
      created, nextId := created + {s}, nextId + 1;
      if !o.alive {
        closedSessions := closedSessions + {s};
        DropClient();
        var connected := DialIfNeeded(o.dial3, ids[0]);
        if !connected {
          return Err(DialFailed);
        }
        if !o.open3 {
          return Err(OpenFailed);
        }
        s := ids[1];
        created, nextId := created + {s}, nextId + 1;
        if !o.alive3 {
          closedSessions := closedSessions + {s};
          return Err(ValidationFailed);
        }
      }
      sessions := sessions + {s};
      lastUsed := now;
      r := Ok(s);
    }

    method Put(s: nat)
      modifies this
      ensures AsPool() == Released(old(AsPool()), s)
    {
      sessions := sessions - {s};
      closedSessions := closedSessions + {s};
    }

    method Close()
      modifies this
      ensures AsPool() == Shut(old(AsPool()))
    {
      if closed {
        return;
      }
      closed := true;
      closedSessions := closedSessions + sessions;
      sessions := {};
      DropClient();
    }

    /** One tick of the idle sweeper. */
    method SweepIdle(now: int)
      modifies this
      ensures AsPool() == Swept(old(AsPool()), now)
    {
      if !closed && client.Some? && |sessions| == 0 && now - lastUsed > IDLE_TIMEOUT {
        DropClient();
      }
    }

    /** Active sessions and free slots. */
    method Stats() returns (active: nat, idle: int)
      requires |sessions| <= MAX_SESSIONS
      ensures active == |sessions| && 0 <= idle && active + idle == 3
    {
      active := |sessions|;
      idle := MAX_SESSIONS - active;
    }
  }

  // ---------- conservation over runs ----------

  /** CloseOwn is a caller closing its session without handing it back: the pool never learns of it. */
  datatype Op = Session(o: Outcomes) | Put(s: nat) | CloseOwn(s: nat) | Close | Sweep | Wait(d: nat)

  /** The pool and the clock, and which sessions callers were handed and handed back, and when last. */
  datatype Run = Run(pool: Pool, now: int, handedOut: set<nat>, handedBack: set<nat>, lastHandedOut: int)

  function Handed(r: Run, a: Acquired): Run {
    var next := r.(pool := a.0);
    if a.1.Ok? then next.(handedOut := r.handedOut + {a.1.value}, lastHandedOut := r.now) else next
  }

  function Step(r: Run, op: Op): Run {
    match op
    case Session(o) => Handed(r, Acquire(r.pool, o, r.now))
    case Put(s) => r.(pool := Released(r.pool, s), handedBack := r.handedBack + {s})
    case CloseOwn(s) => r
    case Close => r.(pool := Shut(r.pool))
    case Sweep => r.(pool := Swept(r.pool, r.now))
    case Wait(d) => r.(now := r.now + d)
  }

  function After(r: Run, ops: seq<Op>): Run {
    if ops == [] then r else Step(After(r, ops[..|ops| - 1]), ops[|ops| - 1])
  }

  /** Every client ever dialled is the current one or closed, and the current one is not closed. */
  predicate ClientsAccounted(p: Pool) {
    && p.dialled == p.closedClients + (if p.client.Some? then {p.client.value} else {})
    && (p.client.Some? ==> p.client.value !in p.closedClients)
    && forall c :: c in p.dialled ==> c < p.nextId
  }

  /** Every session ever opened is tracked or closed, and a tracked one is not closed. */
  predicate SessionsAccounted(p: Pool) {
    && p.sessions <= p.created <= p.sessions + p.closedSessions
    && p.sessions !! p.closedSessions
    && (forall s :: s in p.created ==> s < p.nextId)
  }

  predicate Inv(p: Pool) {
    && ClientsAccounted(p)
    && SessionsAccounted(p)
    && |p.sessions| <= MAX_SESSIONS
    && (p.closed ==> p.client.None? && p.sessions == {})
  }

  /** Callers hand back sessions they were given, so no id is closed before it exists. */
  predicate KnownIds(p: Pool) { forall s :: s in p.closedSessions ==> s < p.nextId }

  lemma EnsureClientKeeps(p: Pool, ok: bool)
    requires Inv(p) && KnownIds(p) && !p.closed
    ensures var q := EnsureClient(p, ok);
      Inv(q) && KnownIds(q) && q.sessions == p.sessions && q.closed == p.closed
  {
  }

  lemma CloseClientKeeps(p: Pool)
    requires Inv(p) && KnownIds(p)
    ensures var q := CloseClient(p);
      Inv(q) && KnownIds(q) && q.client.None? && q.sessions == p.sessions && q.closed == p.closed
  {
  }

  /** A session that was opened and is not yet tracked or closed. */
  predicate Pending(p: Pool, s: nat) {
    && ClientsAccounted(p) && s < p.nextId
    && p.sessions <= p.created <= p.sessions + p.closedSessions + {s}
    && p.sessions !! p.closedSessions && s !in p.sessions && s !in p.closedSessions
    && (forall t :: t in p.created ==> t < p.nextId)
    && |p.sessions| < MAX_SESSIONS && !p.closed && KnownIds(p) && s in p.created
  }

  lemma OpenSessionPends(p: Pool)
    requires Inv(p) && KnownIds(p) && !p.closed && |p.sessions| < MAX_SESSIONS
    ensures Pending(OpenSession(p), p.nextId) && OpenSession(p).sessions == p.sessions
  {
  }

  lemma CloseSessionSettles(p: Pool, s: nat)
    requires Pending(p, s)
    ensures Inv(CloseSession(p, s)) && KnownIds(CloseSession(p, s))
  {
  }

  lemma TrackSettles(p: Pool, s: nat, now: int)
    requires Pending(p, s)
    ensures var (q, r) := Track(p, s, now);
      Inv(q) && KnownIds(q) && q.sessions == p.sessions + {s} && s !in p.sessions && r == Ok(s)
  {
  }

  /** Success tracks exactly one more session, a new one; failure tracks none. */
  predicate Settled(p: Pool, a: Acquired) {
    && Inv(a.0) && KnownIds(a.0)
    && (a.1.Ok? ==> a.1.value !in p.created && a.0.sessions == p.sessions + {a.1.value} && a.0.client.Some?)
    && (a.1.Err? ==> a.0.sessions == p.sessions)
  }

  lemma ValidatedSettles(p0: Pool, p: Pool, o: Outcomes, now: int)
    requires Inv(p) && KnownIds(p) && !p.closed && |p.sessions| < MAX_SESSIONS && p.client.Some?
    requires p.sessions == p0.sessions && forall s :: s in p0.created ==> s < p.nextId
    ensures Settled(p0, Validated(OpenSession(p), p.nextId, o, now))
  {
    var q := OpenSession(p);
    OpenSessionPends(p);
    if o.alive {
      TrackSettles(q, p.nextId, now);
    } else {
      CloseSessionSettles(q, p.nextId);
      var q1 := CloseSession(q, p.nextId);
      CloseClientKeeps(q1);
      EnsureClientKeeps(CloseClient(q1), o.dial3);
      var q2 := EnsureClient(CloseClient(q1), o.dial3);
      OpenSessionPends(q2);
      CloseSessionSettles(OpenSession(q2), q2.nextId);
      TrackSettles(OpenSession(q2), q2.nextId, now);
    }
  }

  /** Whatever fails inside it, an acquisition leaks no client and no session. */
  lemma AcquireSettles(p: Pool, o: Outcomes, now: int)
    requires Inv(p) && KnownIds(p)
    ensures Settled(p, Acquire(p, o, now))
  {
    if !p.closed && |p.sessions| < MAX_SESSIONS {
      EnsureClientKeeps(p, o.dial1);
      var q := EnsureClient(p, o.dial1);
      if q.client.Some? {
        if o.open1 {
          ValidatedSettles(p, q, o, now);
        } else {
          CloseClientKeeps(q);
          EnsureClientKeeps(CloseClient(q), o.dial2);
          var r := EnsureClient(CloseClient(q), o.dial2);
          if r.client.Some? { ValidatedSettles(p, r, o, now); }
        }
      }
    }
  }

  /** Callers only hand back sessions that exist. */
  predicate Sensible(p: Pool, op: Op) { op.Put? ==> op.s < p.nextId }

  lemma ReleasedKeepsInv(p: Pool, s: nat)
    requires Inv(p) && KnownIds(p) && s < p.nextId
    ensures Inv(Released(p, s)) && KnownIds(Released(p, s))
  {
    FewerLeft(p.sessions, s);
  }

  lemma FewerLeft(sessions: set<nat>, s: nat)
    ensures |sessions - {s}| <= |sessions|
  {
    assert s in sessions ==> sessions == (sessions - {s}) + {s};
  }

  lemma ShutKeepsInv(p: Pool)
    requires Inv(p) && KnownIds(p)
    ensures Inv(Shut(p)) && KnownIds(Shut(p))
  {
  }

  lemma StepKeepsInv(r: Run, op: Op)
    requires Inv(r.pool) && KnownIds(r.pool) && Sensible(r.pool, op)
    ensures Inv(Step(r, op).pool) && KnownIds(Step(r, op).pool)
  {
    match op
    case Session(o) => AcquireSettles(r.pool, o, r.now);
    case Put(s) => ReleasedKeepsInv(r.pool, s);
    case CloseOwn(s) =>
    case Close => ShutKeepsInv(r.pool);
    case Sweep => CloseClientKeeps(r.pool);
    case Wait(d) =>
  }

  predicate SensibleRun(r: Run, ops: seq<Op>) {
    ops == [] ||
    (SensibleRun(r, ops[..|ops| - 1]) && Sensible(After(r, ops[..|ops| - 1]).pool, ops[|ops| - 1]))
  }

  function NewPool(now: int): Run { Run(Pool(None, {}, false, now, 0, {}, {}, {}, {}), now, {}, {}, now) }

  /**
   Conservation: over every run of acquisitions, returns, closes and idle sweeps, with every
   combination of failures, nothing leaks, at most three sessions are tracked, and a closed
   pool holds nothing.
   */
  lemma {:induction false} NothingLeaks(now: int, ops: seq<Op>)
    requires SensibleRun(NewPool(now), ops)
    ensures Inv(After(NewPool(now), ops).pool) && KnownIds(After(NewPool(now), ops).pool)
  {
    if ops != [] {
      NothingLeaks(now, ops[..|ops| - 1]);
      StepKeepsInv(After(NewPool(now), ops[..|ops| - 1]), ops[|ops| - 1]);
    }
  }

  /** A closed pool stays closed: it refuses every acquisition and never dials again. */
  lemma {:induction false} ClosedForever(r: Run, ops: seq<Op>)
    requires r.pool.closed
    ensures After(r, ops).pool.closed && After(r, ops).pool.dialled == r.pool.dialled
    ensures forall o :: Acquire(After(r, ops).pool, o, After(r, ops).now) == (After(r, ops).pool, Err(PoolClosed))
  {
    if ops != [] { ClosedForever(r, ops[..|ops| - 1]); }
  }

  // ---------- when an acquisition succeeds ----------

  /**
   A session is handed out iff the pool is open with a slot free, there is a client or the first
   dial works, a session opens at once or after one reconnect, and it is alive or another
   reconnect opens one that is.
   */
  lemma AcquiredIff(p: Pool, o: Outcomes, now: int)
    ensures Acquire(p, o, now).1.Ok? <==>
      && !p.closed && |p.sessions| < 3
      && (p.client.Some? || o.dial1)
      && (o.open1 || (o.dial2 && o.open2))
      && (o.alive || (o.dial3 && o.open3 && o.alive3))
  {
  }

  /** Why it is not: the first of these that goes wrong, in this order. */
  lemma RefusedBecause(p: Pool, o: Outcomes, now: int)
    ensures var r := Acquire(p, o, now).1;
      && (p.closed ==> r == Err(PoolClosed))
      && (!p.closed && |p.sessions| >= 3 ==> r == Err(PoolExhausted))
      && (!p.closed && |p.sessions| < 3 ==>
            if p.client.None? && !o.dial1 then r == Err(DialFailed)
            else if !o.open1 && !o.dial2 then r == Err(DialFailed)
            else if !o.open1 && !o.open2 then r == Err(OpenFailed)
            else if o.alive then r.Ok?
            else if !o.dial3 then r == Err(DialFailed)
            else if !o.open3 then r == Err(OpenFailed)
            else if !o.alive3 then r == Err(ValidationFailed)
            else r.Ok?)
  {
  }

  /** A successful acquisition makes a client for each dial it needs and a session for each time it opens one. */
  lemma AcquisitionCost(p: Pool, o: Outcomes, now: int)
    requires Acquire(p, o, now).1.Ok?
    ensures Acquire(p, o, now).0.nextId == p.nextId
      + (if p.client.None? then 1 else 0) + (if o.open1 then 0 else 1) + (if o.alive then 0 else 1)
      + (if o.alive then 1 else 2)
  {
  }

  // ---------- when clients are closed ----------

  /** The pool's fields against what callers saw. */
  predicate TracksHistory(r: Run) {
    && r.handedBack <= r.pool.closedSessions
    && (!r.pool.closed ==> r.pool.sessions == r.handedOut - r.handedBack)
    && r.pool.lastUsed == r.lastHandedOut
  }

  /** An acquisition reopens no session and no pool, and uses the pool iff it succeeds. */
  predicate OnlyAdds(p: Pool, a: Acquired, now: int) {
    && p.closedSessions <= a.0.closedSessions && a.0.closed == p.closed
    && a.0.lastUsed == if a.1.Ok? then now else p.lastUsed
  }

  lemma AcquireOnlyAdds(p: Pool, o: Outcomes, now: int)
    ensures OnlyAdds(p, Acquire(p, o, now), now)
  {
  }

  /** A session new to the pool is none of those handed back before. */
  lemma HandedTracksHistory(r: Run, a: Acquired)
    requires TracksHistory(r) && Settled(r.pool, a) && OnlyAdds(r.pool, a, r.now)
    ensures TracksHistory(Handed(r, a))
  {
  }

  lemma StepTracksHistory(r: Run, op: Op)
    requires Inv(r.pool) && KnownIds(r.pool) && TracksHistory(r)
    ensures TracksHistory(Step(r, op))
  {
    if op.Session? {
      AcquireSettles(r.pool, op.o, r.now);
      AcquireOnlyAdds(r.pool, op.o, r.now);
      HandedTracksHistory(r, Acquire(r.pool, op.o, r.now));
    }
  }

  lemma {:induction false} RunTracksHistory(now: int, ops: seq<Op>)
    requires SensibleRun(NewPool(now), ops)
    ensures TracksHistory(After(NewPool(now), ops))
  {
    if ops != [] {
      RunTracksHistory(now, ops[..|ops| - 1]);
      NothingLeaks(now, ops[..|ops| - 1]);
      StepTracksHistory(After(NewPool(now), ops[..|ops| - 1]), ops[|ops| - 1]);
    }
  }

  /**
   On every run, a sweep closes a client iff there is one, every session ever handed out was
   handed back, and the last one was handed out over 30 s ago: never under a session in use.
   */
  lemma SweepClosesIffAllHandedBack(now: int, ops: seq<Op>)
    requires SensibleRun(NewPool(now), ops)
    ensures var r := After(NewPool(now), ops);
      Step(r, Sweep).pool.closedClients != r.pool.closedClients <==>
        r.pool.client.Some? && r.handedOut <= r.handedBack && r.now - r.lastHandedOut > 30_000_000_000
  {
    NothingLeaks(now, ops);
    RunTracksHistory(now, ops);
    SweepInHistory(After(NewPool(now), ops));
  }

  lemma SweepInHistory(r: Run)
    requires Inv(r.pool) && TracksHistory(r)
    ensures Step(r, Sweep).pool.closedClients != r.pool.closedClients <==>
      r.pool.client.Some? && r.handedOut <= r.handedBack && r.now - r.lastHandedOut > 30_000_000_000
  {
    SweepCloses(r.pool, r.now);
    if r.handedOut <= r.handedBack { assert r.handedOut - r.handedBack == {}; }
    forall s | s in r.handedOut && s !in r.handedBack ensures s in r.handedOut - r.handedBack {}
  }

  lemma SweepCloses(p: Pool, now: int)
    requires Inv(p)
    ensures Swept(p, now).closedClients != p.closedClients <==>
      p.client.Some? && p.sessions == {} && now - p.lastUsed > IDLE_TIMEOUT
  {
    assert p.sessions == {} <==> |p.sessions| == 0;
    if p.client.Some? { assert p.client.value in CloseClient(p).closedClients; }
  }

  lemma RefusedInHistory(r: Run, o: Outcomes)
    requires Inv(r.pool) && TracksHistory(r)
    ensures Acquire(r.pool, o, r.now).1 == Err(PoolExhausted) <==>
      !r.pool.closed && |r.handedOut - r.handedBack| == 3
  {
  }

  /**
   On every run an acquisition is refused for want of a slot iff the pool is open and exactly
   three of the sessions handed out were not handed back, whether their callers closed them or not.
   */
  lemma ExhaustedIff(now: int, ops: seq<Op>, o: Outcomes)
    requires SensibleRun(NewPool(now), ops)
    ensures var r := After(NewPool(now), ops);
      Acquire(r.pool, o, r.now).1 == Err(PoolExhausted) <==>
        !r.pool.closed && |r.handedOut - r.handedBack| == 3
  {
    NothingLeaks(now, ops);
    RunTracksHistory(now, ops);
    RefusedInHistory(After(NewPool(now), ops), o);
  }

  /** The pool is at its limit with these sessions. */
  predicate StuckOn(p: Pool, out: set<nat>) { !p.closed && p.sessions == out && |out| >= 3 }

  /** Three sessions that are never handed back exhaust an open pool for good. */
  lemma {:induction false} NeverHandedBack(r: Run, ops: seq<Op>, out: set<nat>, o: Outcomes)
    requires StuckOn(r.pool, out)
    requires forall i :: 0 <= i < |ops| ==> !ops[i].Close? && (ops[i].Put? ==> ops[i].s !in out)
    ensures StuckOn(After(r, ops).pool, out)
    ensures Acquire(After(r, ops).pool, o, After(r, ops).now).1 == Err(PoolExhausted)
  {
    if ops != [] {
      var n := |ops| - 1;
      NeverHandedBack(r, ops[..n], out, o);
      assert !ops[n].Close? && (ops[n].Put? ==> ops[n].s !in out);
    }
  }

  /**
   Idle time runs from the last acquisition, not from the last return: returning the only
   session makes the client sweepable at once iff that session was acquired over 30 s ago.
   */
  lemma SweptRightAfterReturnIff(p: Pool, s: nat, now: int)
    requires Inv(p) && p.sessions == {s} && p.client.Some?
    ensures Swept(Released(p, s), now).client.None? <==> now - p.lastUsed > IDLE_TIMEOUT
  {
  }

  /**
   An acquisition closes the client under sessions other callers still hold iff it got past
   the checks with a client that fails to open a session or to answer the keepalive.
   */
  lemma ClientClosedUnderSessionsIff(p: Pool, o: Outcomes, now: int)
    requires Inv(p) && KnownIds(p) && p.client.Some? && p.sessions != {}
    ensures p.client.value in Acquire(p, o, now).0.closedClients <==>
      |p.sessions| < MAX_SESSIONS && (!o.open1 || !o.alive)
  {
  }
}
