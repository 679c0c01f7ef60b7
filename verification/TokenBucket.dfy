/**
 The per-token rate limiter: a token bucket for each key, with eviction of idle visitors once
 there are more than a thousand. The bucket refills at 60 tokens per 60e9 ns, so in units of
 1e-9 token its floats are integers: one unit per nanosecond.
 */
module TokenBucket {

  /** One token, and one second. */
  const TOKEN: int := 1_000_000_000
  const BURST: int := 10
  const CAP: int := BURST * TOKEN
  const EVICT_AFTER: int := 120 * TOKEN
  const MAX_VISITORS := 1000

  datatype Visitor = Visitor(tokens: int, lastCheck: int)
  type Visitors = map<string, Visitor>

  datatype Request = Request(key: string, now: int)

  function Min(a: int, b: int): int { if a < b then a else b }

  function Refilled(v: Visitor, now: int): int {
    Min(CAP, v.tokens + (now - v.lastCheck))
  }

  /** What eviction leaves. */
  function Evicted(vs: Visitors, now: int): Visitors {
    if |vs| > MAX_VISITORS then map k | k in vs && now - vs[k].lastCheck <= EVICT_AFTER :: vs[k]
    else vs
  }

  /** The visitors and the verdict after a request, on a limiter that has evicted what it will. */
  function Served(vs: Visitors, r: Request): (Visitors, bool) {
    if r.key !in vs then (vs[r.key := Visitor((BURST - 1) * TOKEN, r.now)], true)
    else
      var t := Refilled(vs[r.key], r.now);
      if t < TOKEN then (vs[r.key := Visitor(t, r.now)], false)
      else (vs[r.key := Visitor(t - TOKEN, r.now)], true)
  }

  function Decide(vs: Visitors, r: Request, evict: bool): (Visitors, bool) {
    Served(if evict then Evicted(vs, r.now) else vs, r)
  }

  class RateLimiter {
    var visitors: Visitors

    constructor ()
      ensures visitors == map[]
    {
      visitors := map[];
    }

    method Allow(key: string, now: int) returns (ok: bool)
      modifies this
      ensures (visitors, ok) == Decide(old(visitors), Request(key, now), true)
    {
      if |visitors| > MAX_VISITORS {
        EvictIdle(now);
      }
      if key !in visitors {
        visitors := visitors[key := Visitor((BURST - 1) * TOKEN, now)];
        return true;
      }
      ghost var kept := visitors;
      var v := visitors[key];
      var elapsed := now - v.lastCheck;
      v := v.(lastCheck := now, tokens := v.tokens + elapsed);
      if v.tokens > CAP {
        v := v.(tokens := CAP);
      }
      visitors := visitors[key := v];
      if v.tokens < TOKEN {
        return false;
      }
      visitors := visitors[key := v.(tokens := v.tokens - TOKEN)];
      assert visitors == kept[key := Visitor(Refilled(kept[key], now) - TOKEN, now)];
      ok := true;
    }

    method EvictIdle(now: int)
      modifies this
      ensures visitors ==
        map k | k in old(visitors) && now - old(visitors)[k].lastCheck <= EVICT_AFTER :: old(visitors)[k]
    {
      ghost var before := visitors;
      var todo := visitors.Keys;
      while todo != {}
        invariant todo <= visitors.Keys <= before.Keys
        invariant forall k :: k in visitors ==> visitors[k] == before[k]
        invariant forall k :: k in before && k !in todo ==>
          (k in visitors <==> now - before[k].lastCheck <= EVICT_AFTER)
        decreases todo
      {
        var k :| k in todo;
        todo := todo - {k};
        if now - visitors[k].lastCheck > EVICT_AFTER {
          visitors := visitors - {k};
        }
      }
    }
  }

  // ---------- runs ----------

  /** The visitors after a run of requests on a fresh limiter, with or without eviction. */
  function After(reqs: seq<Request>, evict: bool): Visitors {
    if reqs == [] then map[]
    else Decide(After(reqs[..|reqs| - 1], evict), reqs[|reqs| - 1], evict).0
  }

  /** The verdict on the last request of a run. */
  predicate Granted(reqs: seq<Request>, evict: bool)
    requires reqs != []
  {
    Decide(After(reqs[..|reqs| - 1], evict), reqs[|reqs| - 1], evict).1
  }

  /** The times at which a key was granted a request, in order. */
  function GrantTimes(reqs: seq<Request>, evict: bool, key: string): seq<int> {
    if reqs == [] then []
    else
      var n := |reqs| - 1;
      GrantTimes(reqs[..n], evict, key) +
      (if reqs[n].key == key && Granted(reqs, evict) then [reqs[n].now] else [])
  }

  /** A denied or foreign request adds no grant. */
  lemma GrantTimesStep(reqs: seq<Request>, evict: bool, key: string)
    requires reqs != []
    ensures var n := |reqs| - 1; var g := GrantTimes(reqs[..n], evict, key);
      GrantTimes(reqs, evict, key) == if reqs[n].key == key && Granted(reqs, evict) then g + [reqs[n].now] else g
  {
  }

  /** The clock never goes back. */
  predicate Monotone(reqs: seq<Request>) {
    forall i, j :: 0 <= i < j < |reqs| ==> reqs[i].now <= reqs[j].now
  }

  /**
   The limit as a law about windows: counting the request at time t, no window that ends at t
   holds more than a burst of ten and one per second of its length.
   */
  predicate WithinEnvelope(grants: seq<int>, t: int) {
    forall i :: 0 <= i < |grants| ==> (|grants| - i + 1) * TOKEN <= CAP + (t - grants[i])
  }

  // ---------- levels ----------

  /** The tokens a key can draw on at time t: a key never seen, or evicted, has a full bucket. */
  function Level(vs: Visitors, key: string, t: int): int {
    if key in vs then Refilled(vs[key], t) else CAP
  }

  /** The level as a function of the grant times alone. */
  function LevelAfter(grants: seq<int>, t: int): int {
    if grants == [] then CAP
    else
      var n := |grants| - 1;
      Min(CAP, LevelAfter(grants[..n], grants[n]) - TOKEN + (t - grants[n]))
  }

  predicate WellFormed(vs: Visitors, now: int) {
    forall k :: k in vs ==> 0 <= vs[k].tokens <= CAP && vs[k].lastCheck <= now
  }

  /** How a request moves the level of its own key, and of no other. */
  lemma DecideByLevel(vs: Visitors, r: Request, evict: bool, key: string, t: int)
    requires WellFormed(vs, r.now) && r.now <= t
    ensures var (after, ok) := Decide(vs, r, evict);
      && WellFormed(after, t)
      && (ok <==> Level(vs, r.key, r.now) >= TOKEN)
      && Level(after, key, t) ==
           if key == r.key then Min(CAP, Level(vs, key, r.now) - (if ok then TOKEN else 0) + (t - r.now))
           else Level(vs, key, t)
  {
  }

  /** What a run so far, and one more request, do to the level of a key. */
  predicate Follows(vs: Visitors, grants: seq<int>, key: string, t: int) {
    && WellFormed(vs, t)
    && Level(vs, key, t) == LevelAfter(grants, t)
    && forall i :: 0 <= i < |grants| ==> grants[i] <= t
  }

  lemma DecideFollows(vs: Visitors, grants: seq<int>, r: Request, evict: bool, key: string, t: int)
    requires r.now <= t && Follows(vs, grants, key, r.now) && Follows(vs, grants, key, t)
    ensures var (after, ok) := Decide(vs, r, evict);
      Follows(after, if r.key == key && ok then grants + [r.now] else grants, key, t)
  {
  }

  predicate NotAfter(reqs: seq<Request>, t: int) {
    forall i :: 0 <= i < |reqs| ==> reqs[i].now <= t
  }

  lemma PrefixOfRun(reqs: seq<Request>, t: int)
    requires reqs != [] && Monotone(reqs) && NotAfter(reqs, t)
    ensures var n := |reqs| - 1;
      Monotone(reqs[..n]) && NotAfter(reqs[..n], reqs[n].now) && NotAfter(reqs[..n], t) && reqs[n].now <= t
  {
  }

  lemma {:induction false} LevelsFollowGrants(reqs: seq<Request>, evict: bool, key: string, t: int)
    requires Monotone(reqs) && NotAfter(reqs, t)
    ensures Follows(After(reqs, evict), GrantTimes(reqs, evict, key), key, t)
    decreases reqs
  {
    if reqs != [] {
      var n := |reqs| - 1;
      var init, r := reqs[..n], reqs[n];
      PrefixOfRun(reqs, t);
      LevelsFollowGrants(init, evict, key, t);
      LevelsFollowGrants(init, evict, key, r.now);
      DecideFollows(After(init, evict), GrantTimes(init, evict, key), r, evict, key, t);
      GrantTimesStep(reqs, evict, key);
    }
  }

  /** A level of x means that x more fits every window that began at an earlier grant. */
  lemma {:induction false} LevelIsEnvelope(grants: seq<int>, t: int, x: int)
    requires x <= CAP
    ensures LevelAfter(grants, t) >= x <==>
      forall i :: 0 <= i < |grants| ==> (|grants| - i) * TOKEN + x <= CAP + (t - grants[i])
  {
    if grants != [] {
      var n := |grants| - 1;
      var y := x + TOKEN - (t - grants[n]);
      if y <= CAP {
        LevelIsEnvelope(grants[..n], grants[n], y);
        forall i | 0 <= i < n
          ensures (n - i) * TOKEN + y <= CAP + (grants[n] - grants[i]) <==>
                  (|grants| - i) * TOKEN + x <= CAP + (t - grants[i])
        {
        }
        assert forall i :: 0 <= i < n ==> grants[..n][i] == grants[i];
      } else {
        LevelAtMostCap(grants[..n], grants[n]);
        assert (|grants| - n) * TOKEN + x > CAP + (t - grants[n]);
      }
    }
  }

  lemma LevelAtMostCap(grants: seq<int>, t: int)
    ensures LevelAfter(grants, t) <= CAP
  {
  }

  // ---------- the theorems ----------

  /**
   The bucket is the exact limiter of its law: on every run with a monotone clock a request is
   granted iff the grants of its key so far leave room for it in every window ending now.
   */
  lemma GrantedIffWithinEnvelope(reqs: seq<Request>, evict: bool)
    requires reqs != [] && Monotone(reqs)
    ensures var n := |reqs| - 1;
      Granted(reqs, evict) <==> WithinEnvelope(GrantTimes(reqs[..n], evict, reqs[n].key), reqs[n].now)
  {
    var n := |reqs| - 1;
    var init, r := reqs[..n], reqs[n];
    var grants := GrantTimes(init, evict, r.key);
    LevelsFollowGrants(init, evict, r.key, r.now);
    DecideByLevel(After(init, evict), r, evict, r.key, r.now);
    LevelIsEnvelope(grants, r.now, TOKEN);
    forall i | 0 <= i < |grants|
      ensures (|grants| - i + 1) * TOKEN <= CAP + (r.now - grants[i]) <==>
              (|grants| - i) * TOKEN + TOKEN <= CAP + (r.now - grants[i])
    {
    }
  }

  /** Eviction is unobservable: with it and without it every request gets the same verdict. */
  lemma {:induction false} EvictionUnobservable(reqs: seq<Request>, key: string)
    requires Monotone(reqs)
    ensures GrantTimes(reqs, true, key) == GrantTimes(reqs, false, key)
    ensures reqs != [] ==> Granted(reqs, true) == Granted(reqs, false)
    decreases reqs
  {
    if reqs != [] {
      var n := |reqs| - 1;
      EvictionUnobservable(reqs[..n], key);
      EvictionUnobservable(reqs[..n], reqs[n].key);
      GrantedIffWithinEnvelope(reqs, true);
      GrantedIffWithinEnvelope(reqs, false);
    }
  }

  function CountWithin(times: seq<int>, a: int, b: int): nat {
    if times == [] then 0
    else
      var n := |times| - 1;
      CountWithin(times[..n], a, b) + (if a <= times[n] <= b then 1 else 0)
  }

  /** In an ordered list the times from a on are the last ones. */
  lemma {:induction false} CountedAreLast(times: seq<int>, a: int, b: int)
    requires forall i, j :: 0 <= i < j < |times| ==> times[i] <= times[j]
    requires forall i :: 0 <= i < |times| ==> times[i] <= b
    ensures CountWithin(times, a, b) <= |times|
    ensures CountWithin(times, a, b) > 0 ==> times[|times| - CountWithin(times, a, b)] >= a
    ensures times != [] && times[|times| - 1] < a ==> CountWithin(times, a, b) == 0
  {
    if times != [] {
      CountedAreLast(times[..|times| - 1], a, b);
    }
  }

  lemma {:induction false} GrantsAreOrdered(reqs: seq<Request>, key: string)
    requires Monotone(reqs)
    ensures var g := GrantTimes(reqs, true, key); forall i, j :: 0 <= i < j < |g| ==> g[i] <= g[j]
    ensures var g := GrantTimes(reqs, true, key);
      reqs != [] ==> forall i :: 0 <= i < |g| ==> g[i] <= reqs[|reqs| - 1].now
  {
    if reqs != [] {
      GrantsAreOrdered(reqs[..|reqs| - 1], key);
      GrantTimesStep(reqs, true, key);
    }
  }

  /** A request granted inside an interval still fits its bound. */
  lemma GrantFitsInterval(reqs: seq<Request>, key: string, grants: seq<int>, a: int, b: int)
    requires Monotone(reqs) && reqs != [] && Granted(reqs, true) && reqs[|reqs| - 1].key == key
    requires grants == GrantTimes(reqs[..|reqs| - 1], true, key) && a <= reqs[|reqs| - 1].now <= b
    ensures CountWithin(grants, a, b) * TOKEN + TOKEN <= CAP + (b - a)
  {
    GrantsAreOrdered(reqs[..|reqs| - 1], key);
    assert |reqs| == 1 ==> grants == [];
    CountedAreLast(grants, a, b);
    GrantedIffWithinEnvelope(reqs, true);
  }

  /** Whatever is evicted in between, no interval of T seconds grants a key more than 10 + T. */
  lemma {:induction false} AtMostTenPlusT(reqs: seq<Request>, key: string, a: int, b: int)
    requires Monotone(reqs) && a <= b
    ensures CountWithin(GrantTimes(reqs, true, key), a, b) * TOKEN <= CAP + (b - a)
  {
    if reqs != [] {
      var n := |reqs| - 1;
      var grants := GrantTimes(reqs[..n], true, key);
      AtMostTenPlusT(reqs[..n], key, a, b);
      GrantTimesStep(reqs, true, key);
      if reqs[n].key == key && Granted(reqs, true) {
        assert (grants + [reqs[n].now])[..|grants|] == grants;
        if a <= reqs[n].now <= b { GrantFitsInterval(reqs, key, grants, a, b); }
      }
    }
  }

  // ---------- in numbers ----------

  /** No more than ten requests, and one more for each second, are granted in any interval. */
  lemma TenPlusOnePerSecond(reqs: seq<Request>, key: string, a: int, b: int)
    requires Monotone(reqs) && a <= b
    ensures CountWithin(GrantTimes(reqs, true, key), a, b) * 1_000_000_000 <= 10_000_000_000 + (b - a)
  {
    AtMostTenPlusT(reqs, key, a, b);
  }

  /** n requests of one key at one moment. */
  function AtOnce(key: string, t: int, n: nat): seq<Request> { seq(n, _ => Request(key, t)) }

  function Same(t: int, n: nat): seq<int> { seq(n, _ => t) }

  lemma EnvelopeOfSame(t: int, n: nat, d: nat)
    requires n <= 10
    ensures WithinEnvelope(Same(t, n), t + d) <==> n < 10 || d >= 1_000_000_000
  {
    var grants := Same(t, n);
    if n == 10 { assert (|grants| - 0 + 1) * TOKEN <= CAP + (t + d - grants[0]) <==> d >= 1_000_000_000; }
  }

  lemma GrantedBehind(reqs: seq<Request>, r: Request, t: int, n: nat)
    requires Monotone(reqs + [r]) && GrantTimes(reqs, true, r.key) == Same(t, n) && n <= 10 && t <= r.now
    ensures Granted(reqs + [r], true) <==> n < 10 || r.now - t >= 1_000_000_000
  {
    assert (reqs + [r])[..|reqs|] == reqs;
    GrantedIffWithinEnvelope(reqs + [r], true);
    EnvelopeOfSame(t, n, r.now - t);
  }

  lemma {:induction false} TenAtOnce(key: string, t: int, n: nat)
    requires n <= 10
    ensures GrantTimes(AtOnce(key, t, n), true, key) == Same(t, n)
  {
    if n > 0 {
      var init, r := AtOnce(key, t, n - 1), Request(key, t);
      assert AtOnce(key, t, n) == init + [r] && (init + [r])[..n - 1] == init;
      TenAtOnce(key, t, n - 1);
      GrantedBehind(init, r, t, n - 1);
      GrantTimesStep(init + [r], true, key);
    }
  }

  /**
   Ten requests of a new key at one moment are granted, the eleventh only a second later, to the
   nanosecond.
   */
  lemma EleventhWaitsASecond(key: string, t: int, n: nat, d: nat)
    ensures 0 < n <= 10 ==> Granted(AtOnce(key, t, n), true)
    ensures Granted(AtOnce(key, t, 10) + [Request(key, t + d)], true) <==> d >= 1_000_000_000
  {
    if 0 < n <= 10 {
      assert AtOnce(key, t, n) == AtOnce(key, t, n - 1) + [Request(key, t)];
      TenAtOnce(key, t, n - 1);
      GrantedBehind(AtOnce(key, t, n - 1), Request(key, t), t, n - 1);
    }
    TenAtOnce(key, t, 10);
    GrantedBehind(AtOnce(key, t, 10), Request(key, t + d), t, 10);
  }

  /** What a request leaves of its key's bucket, granted or not, and of no other. */
  lemma ServedExactly(vs: Visitors, r: Request, other: string)
    ensures var (after, ok) := Served(vs, r);
      && r.key in after && after[r.key].lastCheck == r.now
      && (r.key !in vs ==> ok && after[r.key].tokens == 9_000_000_000)
      && (r.key in vs ==>
            var t := vs[r.key].tokens + (r.now - vs[r.key].lastCheck);
            var level := if t > 10_000_000_000 then 10_000_000_000 else t;
            ok == (level >= 1_000_000_000) && after[r.key].tokens == if ok then level - 1_000_000_000 else level)
      && (other != r.key ==> (other in after <==> other in vs) && (other in vs ==> after[other] == vs[other]))
  {
  }

  /** Above a thousand visitors, those idle for more than two minutes go; else all stay. */
  lemma EvictedExactly(vs: Visitors, now: int, key: string)
    ensures key in Evicted(vs, now) <==>
      key in vs && (|vs| <= 1000 || now - vs[key].lastCheck <= 120_000_000_000)
    ensures key in Evicted(vs, now) ==> Evicted(vs, now)[key] == vs[key]
  {
  }
}
