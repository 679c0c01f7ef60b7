/**
 The invite limiter: per address, a log of the attempts allowed in the last minute. Old
 attempts are pruned from the log; the theorems speak of the full history.
 */
module SlidingWindow {

  const MAX_ATTEMPTS := 5
  /** Sixty seconds, in nanoseconds. */
  const WINDOW: int := 60_000_000_000

  type Log = map<string, seq<int>>

  datatype Attempt = Attempt(ip: string, now: int)

  /** The times strictly after the cutoff, in order. */
  function After(times: seq<int>, cutoff: int): seq<int> {
    if times == [] then []
    else
      var n := |times| - 1;
      if times[n] > cutoff then After(times[..n], cutoff) + [times[n]] else After(times[..n], cutoff)
  }

  function Check(log: Log, a: Attempt): (Log, bool) {
    if a.ip !in log then (log[a.ip := [a.now]], true)
    else
      var recent := After(log[a.ip], a.now - WINDOW);
      if |recent| >= MAX_ATTEMPTS then (log[a.ip := recent], false)
      else (log[a.ip := recent + [a.now]], true)
  }

  class Limiter {
    var log: Log

    constructor ()
      ensures log == map[]
    {
      log := map[];
    }

    method CheckRateLimit(ip: string, now: int) returns (ok: bool)
      modifies this
      ensures (log, ok) == Check(old(log), Attempt(ip, now))
    {
      if ip !in log {
        log := log[ip := [now]];
        return true;
      }
      var cutoff := now - WINDOW;
      var attempts := log[ip];
      var filtered: seq<int> := [];
      for i := 0 to |attempts|
        invariant filtered == After(attempts[..i], cutoff)
      {
        assert attempts[..i + 1][..i] == attempts[..i];
        if attempts[i] > cutoff {
          filtered := filtered + [attempts[i]];
        }
      }
      assert attempts[..|attempts|] == attempts;
      if |filtered| >= MAX_ATTEMPTS {
        log := log[ip := filtered];
        return false;
      }
      log := log[ip := filtered + [now]];
      ok := true;
    }
  }

  // ---------- runs ----------

  function LogAfter(run: seq<Attempt>): Log {
    if run == [] then map[] else Check(LogAfter(run[..|run| - 1]), run[|run| - 1]).0
  }

  /** The verdict on the last attempt of a run. */
  predicate Allowed(run: seq<Attempt>)
    requires run != []
  {
    Check(LogAfter(run[..|run| - 1]), run[|run| - 1]).1
  }

  /** The full, never pruned history: when an address was allowed an attempt. */
  function History(run: seq<Attempt>, ip: string): seq<int> {
    if run == [] then []
    else
      var n := |run| - 1;
      if run[n].ip == ip && Allowed(run) then History(run[..n], ip) + [run[n].now] else History(run[..n], ip)
  }

  predicate Monotone(run: seq<Attempt>) {
    forall i, j :: 0 <= i < j < |run| ==> run[i].now <= run[j].now
  }

  lemma {:induction false} AfterAfter(times: seq<int>, c: int, d: int)
    requires c <= d
    ensures After(After(times, c), d) == After(times, d)
  {
    if times != [] {
      var n := |times| - 1;
      AfterAfter(times[..n], c, d);
      var before := After(times[..n], c);
      if times[n] > c {
        AfterSnoc(before, times[n], d);
      }
    }
  }

  lemma AfterSnoc(times: seq<int>, t: int, cutoff: int)
    ensures After(times + [t], cutoff) == if t > cutoff then After(times, cutoff) + [t] else After(times, cutoff)
  {
  }

  /** The log of an address agrees with its history on everything from `now` minus a minute on. */
  predicate Agrees(log: Log, history: seq<int>, ip: string, now: int) {
    if ip in log then After(log[ip], now - WINDOW) == After(history, now - WINDOW)
    else history == []
  }

  lemma RecentAgrees(entry: seq<int>, history: seq<int>, t: int, c: int, d: int)
    requires c <= d && After(entry, c) == After(history, c) && After(entry, d) == After(history, d)
    ensures After(After(entry, c), d) == After(history, d)
    ensures After(After(entry, c) + [t], d) == After(history + [t], d)
  {
    AfterAfter(entry, c, d);
    AfterSnoc(After(entry, c), t, d);
    AfterSnoc(history, t, d);
  }

  lemma CheckAgrees(log: Log, a: Attempt, history: seq<int>, now: int)
    requires a.now <= now && Agrees(log, history, a.ip, a.now) && Agrees(log, history, a.ip, now)
    ensures Agrees(Check(log, a).0, if Check(log, a).1 then history + [a.now] else history, a.ip, now)
  {
    if a.ip in log {
      RecentAgrees(log[a.ip], history, a.now, a.now - WINDOW, now - WINDOW);
    } else {
      assert [] + [a.now] == [a.now];
    }
  }

  /** What was pruned from the log can never count again. */
  lemma {:induction false} LogKeepsRecentHistory(run: seq<Attempt>, ip: string, now: int)
    requires Monotone(run)
    requires forall i :: 0 <= i < |run| ==> run[i].now <= now
    ensures Agrees(LogAfter(run), History(run, ip), ip, now)
    decreases run
  {
    if run != [] {
      var n := |run| - 1;
      var init, a := run[..n], run[n];
      LogKeepsRecentHistory(init, ip, now);
      if a.ip == ip {
        LogKeepsRecentHistory(init, ip, a.now);
        CheckAgrees(LogAfter(init), a, History(init, ip), now);
      }
    }
  }

  /**
   The limiter is exact: an attempt is allowed iff fewer than five of all the attempts ever
   allowed to that address lie in the sixty seconds before it.
   */
  lemma AllowedIffFewerThanFive(run: seq<Attempt>)
    requires run != [] && Monotone(run)
    ensures var n := |run| - 1;
      Allowed(run) <==> |After(History(run[..n], run[n].ip), run[n].now - WINDOW)| < MAX_ATTEMPTS
  {
    var n := |run| - 1;
    LogKeepsRecentHistory(run[..n], run[n].ip, run[n].now);
  }

  function CountIn(times: seq<int>, lo: int, hi: int): nat {
    if times == [] then 0
    else
      var n := |times| - 1;
      CountIn(times[..n], lo, hi) + (if lo <= times[n] < hi then 1 else 0)
  }

  lemma {:induction false} CountInAtMostAfter(times: seq<int>, lo: int, hi: int, cutoff: int)
    requires cutoff < lo
    ensures CountIn(times, lo, hi) <= |After(times, cutoff)|
  {
    if times != [] {
      CountInAtMostAfter(times[..|times| - 1], lo, hi, cutoff);
    }
  }

  /** No window of sixty seconds, its end excluded, ever holds more than five allowed attempts. */
  lemma {:induction false} AtMostFivePerWindow(run: seq<Attempt>, ip: string, lo: int)
    requires Monotone(run)
    ensures CountIn(History(run, ip), lo, lo + WINDOW) <= MAX_ATTEMPTS
  {
    if run != [] {
      var n := |run| - 1;
      AtMostFivePerWindow(run[..n], ip, lo);
      if run[n].ip == ip && Allowed(run) {
        var before := History(run[..n], ip);
        assert (before + [run[n].now])[..|before|] == before;
        if lo <= run[n].now < lo + WINDOW {
          AllowedIffFewerThanFive(run);
          CountInAtMostAfter(before, lo, lo + WINDOW, run[n].now - WINDOW);
        }
      }
    }
  }

  lemma {:induction false} NothingAfter(times: seq<int>, cutoff: int)
    ensures After(times, cutoff) == [] <==> forall t :: t in times ==> t <= cutoff
  {
    if times != [] {
      var n := |times| - 1;
      NothingAfter(times[..n], cutoff);
      if times[n] > cutoff {
        assert |After(times, cutoff)| > 0 && times[n] in times;
      } else {
        assert forall t :: t in times <==> t in times[..n] || t == times[n];
      }
    }
  }

  /** However many attempts were allowed sixty seconds ago or before, the next one is allowed. */
  lemma SixtySecondsOldIsForgotten(run: seq<Attempt>)
    requires run != [] && Monotone(run)
    requires var n := |run| - 1; forall t :: t in History(run[..n], run[n].ip) ==> t <= run[n].now - WINDOW
    ensures Allowed(run)
  {
    var n := |run| - 1;
    NothingAfter(History(run[..n], run[n].ip), run[n].now - WINDOW);
    AllowedIffFewerThanFive(run);
  }

  // ---------- windows that include their end ----------

  /** How many lie in the sixty seconds from `lo` on, both ends included. */
  function ClosedMinute(times: seq<int>, lo: int): nat { CountIn(times, lo, lo + WINDOW + 1) }

  ghost predicate ClosedWindowsHold(times: seq<int>) {
    forall lo :: ClosedMinute(times, lo) <= MAX_ATTEMPTS
  }

  predicate UpTo(times: seq<int>, last: int) { forall i :: 0 <= i < |times| ==> times[i] <= last }

  /** Up to the last attempt, a window is what lies behind its start. */
  lemma {:induction false} CountIsAfter(times: seq<int>, lo: int, hi: int)
    requires UpTo(times, hi - 1)
    ensures CountIn(times, lo, hi) == |After(times, lo - 1)|
  {
    if times != [] {
      CountIsAfter(times[..|times| - 1], lo, hi);
    }
  }

  lemma {:induction false} CountShrinks(times: seq<int>, lo: int, hi: int, lo': int, hi': int)
    requires lo <= lo' && hi' <= hi
    ensures CountIn(times, lo', hi') <= CountIn(times, lo, hi)
  {
    if times != [] { CountShrinks(times[..|times| - 1], lo, hi, lo', hi'); }
  }

  lemma MinuteSnoc(times: seq<int>, t: int, lo: int)
    ensures ClosedMinute(times + [t], lo) == ClosedMinute(times, lo) + (if lo <= t <= lo + WINDOW then 1 else 0)
  {
  }

  /** A minute that reaches up to now and starts later than the one that ends now holds no more. */
  lemma LaterMinuteHoldsLess(times: seq<int>, now: int, lo: int)
    requires UpTo(times, now) && now - WINDOW <= lo <= now
    ensures ClosedMinute(times, lo) <= ClosedMinute(times, now - WINDOW) == |After(times, now - WINDOW - 1)|
  {
    CountIsAfter(times, lo, lo + WINDOW + 1);
    CountIsAfter(times, lo, now + 1);
    CountIsAfter(times, now - WINDOW, now + 1);
    CountShrinks(times, now - WINDOW, now + 1, lo, now + 1);
  }

  /** One more attempt keeps all closed windows small iff fewer than five lie in the one it ends. */
  lemma OneMoreAttempt(times: seq<int>, now: int)
    requires ClosedWindowsHold(times) && UpTo(times, now)
    ensures ClosedWindowsHold(times + [now]) <==> |After(times, now - WINDOW - 1)| < MAX_ATTEMPTS
  {
    LaterMinuteHoldsLess(times, now, now - WINDOW);
    MinuteSnoc(times, now, now - WINDOW);
    forall lo | |After(times, now - WINDOW - 1)| < MAX_ATTEMPTS
      ensures ClosedMinute(times + [now], lo) <= MAX_ATTEMPTS
    {
      MinuteSnoc(times, now, lo);
      if now - WINDOW <= lo <= now { LaterMinuteHoldsLess(times, now, lo); }
    }
  }

  lemma {:induction false} HistoryIsPast(run: seq<Attempt>, ip: string, now: int)
    requires forall i :: 0 <= i < |run| ==> run[i].now <= now
    ensures UpTo(History(run, ip), now)
  {
    if run != [] { HistoryIsPast(run[..|run| - 1], ip, now); }
  }

  lemma MoreStaysMore(times: seq<int>, t: int)
    requires !ClosedWindowsHold(times)
    ensures !ClosedWindowsHold(times + [t])
  {
    var lo :| ClosedMinute(times, lo) > MAX_ATTEMPTS;
    MinuteSnoc(times, t, lo);
  }

  lemma OneMoreOrNot(before: seq<int>, now: int, counted: bool, after: seq<int>)
    requires UpTo(before, now) && after == if counted then before + [now] else before
    ensures ClosedWindowsHold(after) <==>
      ClosedWindowsHold(before) && (counted ==> |After(before, now - WINDOW - 1)| < MAX_ATTEMPTS)
  {
    if counted && ClosedWindowsHold(before) {
      OneMoreAttempt(before, now);
    } else if counted {
      MoreStaysMore(before, now);
    }
  }

  /** The last attempt was allowed to this address. */
  predicate Counts(run: seq<Attempt>, ip: string)
    requires run != []
  {
    run[|run| - 1].ip == ip && Allowed(run)
  }

  lemma HistoryOfLast(run: seq<Attempt>, ip: string)
    requires run != []
    ensures var n := |run| - 1; var before := History(run[..n], ip);
      History(run, ip) == if Counts(run, ip) then before + [run[n].now] else before
  {
  }

  lemma LastAttempt(run: seq<Attempt>, ip: string)
    requires Monotone(run) && run != []
    ensures var n := |run| - 1; var before := History(run[..n], ip);
      ClosedWindowsHold(History(run, ip)) <==>
        ClosedWindowsHold(before) && (Counts(run, ip) ==> |After(before, run[n].now - WINDOW - 1)| < MAX_ATTEMPTS)
  {
    var n := |run| - 1;
    HistoryIsPast(run[..n], ip, run[n].now);
    HistoryOfLast(run, ip);
    OneMoreOrNot(History(run[..n], ip), run[n].now, Counts(run, ip), History(run, ip));
  }

  /** Attempt k was refused, or is another address's, or fewer than five lie in the closed minute before it. */
  predicate FitsClosedMinute(run: seq<Attempt>, ip: string, k: nat)
    requires k < |run|
  {
    Counts(run[..k + 1], ip) ==> |After(History(run[..k], ip), run[k].now - WINDOW - 1)| < MAX_ATTEMPTS
  }

  lemma FitsInPrefix(run: seq<Attempt>, ip: string, n: nat, k: nat)
    requires k < n <= |run|
    ensures FitsClosedMinute(run, ip, k) <==> FitsClosedMinute(run[..n], ip, k)
  {
    assert run[..n][..k] == run[..k] && run[..n][..k + 1] == run[..k + 1];
  }

  lemma FitsLast(run: seq<Attempt>, ip: string)
    requires run != []
    ensures var n := |run| - 1;
      FitsClosedMinute(run, ip, n) <==>
        (Counts(run, ip) ==> |After(History(run[..n], ip), run[n].now - WINDOW - 1)| < MAX_ATTEMPTS)
  {
    assert run[..|run| - 1 + 1] == run;
  }

  /**
   A window that includes its end can hold more than five: on every run, all closed windows of
   an address hold at most five allowed attempts iff each allowed attempt found fewer than five
   in the sixty seconds before it, the attempt exactly sixty seconds old counted.
   */
  lemma {:induction false} ClosedWindowsHoldIff(run: seq<Attempt>, ip: string)
    requires Monotone(run)
    ensures ClosedWindowsHold(History(run, ip)) <==> forall k :: 0 <= k < |run| ==> FitsClosedMinute(run, ip, k)
  {
    if run != [] {
      var n := |run| - 1;
      ClosedWindowsHoldIff(run[..n], ip);
      LastAttempt(run, ip);
      FitsLast(run, ip);
      forall k | 0 <= k < n ensures FitsClosedMinute(run, ip, k) <==> FitsClosedMinute(run[..n], ip, k) {
        FitsInPrefix(run, ip, n, k);
      }
    }
  }

  function Zeros(n: nat): (times: seq<int>)
    ensures |times| == n
  {
    if n == 0 then [] else Zeros(n - 1) + [0]
  }

  lemma {:induction false} ZerosCount(n: nat)
    ensures ClosedMinute(Zeros(n), 0) == n && UpTo(Zeros(n), 0)
    ensures |After(Zeros(n), -WINDOW)| <= n && After(Zeros(n), 0) == []
  {
    if n > 0 {
      ZerosCount(n - 1);
      AfterSnoc(Zeros(n - 1), 0, -WINDOW);
      AfterSnoc(Zeros(n - 1), 0, 0);
      MinuteSnoc(Zeros(n - 1), 0, 0);
    }
  }

  lemma AllowedToo(run: seq<Attempt>, a: Attempt, n: nat)
    requires n < MAX_ATTEMPTS && a.now == 0 && History(run, a.ip) == Zeros(n)
    requires forall i :: 0 <= i < |run| ==> run[i].now == 0
    ensures History(run + [a], a.ip) == Zeros(n + 1)
  {
    ZerosCount(n);
    AllowedSnoc(run, a);
  }

  /** n attempts of one address at time 0. */
  function Burst(ip: string, n: nat): seq<Attempt> { seq(n, _ => Attempt(ip, 0)) }

  lemma {:induction false} BurstIsAllowed(ip: string, n: nat)
    requires n <= MAX_ATTEMPTS
    ensures History(Burst(ip, n), ip) == Zeros(n)
  {
    if n > 0 {
      BurstIsAllowed(ip, n - 1);
      AllowedToo(Burst(ip, n - 1), Attempt(ip, 0), n - 1);
      assert Burst(ip, n) == Burst(ip, n - 1) + [Attempt(ip, 0)];
    }
  }

  lemma MonotoneSnoc(run: seq<Attempt>, a: Attempt)
    requires Monotone(run) && forall i :: 0 <= i < |run| ==> run[i].now <= a.now
    ensures Monotone(run + [a])
  {
  }

  lemma AllowedLast(run: seq<Attempt>, a: Attempt)
    requires Monotone(run) && forall i :: 0 <= i < |run| ==> run[i].now <= a.now
    ensures Allowed(run + [a]) <==> |After(History(run, a.ip), a.now - WINDOW)| < MAX_ATTEMPTS
    ensures Monotone(run + [a]) && (run + [a])[..|run|] == run
  {
    assert (run + [a])[..|run|] == run;
    MonotoneSnoc(run, a);
    AllowedIffFewerThanFive(run + [a]);
  }

  lemma AllowedSnoc(run: seq<Attempt>, a: Attempt)
    requires Monotone(run) && (forall i :: 0 <= i < |run| ==> run[i].now <= a.now)
    requires |After(History(run, a.ip), a.now - WINDOW)| < MAX_ATTEMPTS
    ensures History(run + [a], a.ip) == History(run, a.ip) + [a.now] && Monotone(run + [a])
  {
    AllowedLast(run, a);
    HistoryOfLast(run + [a], a.ip);
  }

  /** Five attempts at once and a sixth sixty seconds later: the closed minute holds all six. */
  lemma ClosedMinuteHoldsSix(ip: string)
    ensures var run := Burst(ip, 5) + [Attempt(ip, WINDOW)];
      Monotone(run) && ClosedMinute(History(run, ip), 0) == 6
  {
    BurstIsAllowed(ip, 5);
    ZerosCount(5);
    AllowedSnoc(Burst(ip, 5), Attempt(ip, WINDOW));
    MinuteSnoc(Zeros(5), WINDOW, 0);
  }

  lemma {:induction false} AllOrNothing(n: nat, cutoff: int)
    ensures |After(Zeros(n), cutoff)| == if cutoff < 0 then n else 0
  {
    if n > 0 {
      AllOrNothing(n - 1, cutoff);
      AfterSnoc(Zeros(n - 1), 0, cutoff);
    }
  }

  lemma AllowedBehind(run: seq<Attempt>, a: Attempt, n: nat)
    requires Monotone(run) && (forall i :: 0 <= i < |run| ==> run[i].now <= a.now)
    requires History(run, a.ip) == Zeros(n)
    ensures Allowed(run + [a]) <==> n < 5 || a.now >= 60_000_000_000
  {
    AllowedLast(run, a);
    AllOrNothing(n, a.now - WINDOW);
  }

  /**
   Five attempts at one moment are allowed, the sixth only sixty seconds later, to the
   nanosecond.
   */
  lemma SixthWaitsAMinute(ip: string, n: nat, d: nat)
    ensures 0 < n <= 5 ==> Allowed(Burst(ip, n))
    ensures Allowed(Burst(ip, 5) + [Attempt(ip, d)]) <==> d >= 60_000_000_000
  {
    if 0 < n <= 5 {
      assert Burst(ip, n) == Burst(ip, n - 1) + [Attempt(ip, 0)];
      BurstIsAllowed(ip, n - 1);
      AllowedBehind(Burst(ip, n - 1), Attempt(ip, 0), n - 1);
    }
    BurstIsAllowed(ip, 5);
    AllowedBehind(Burst(ip, 5), Attempt(ip, d), 5);
  }

  lemma {:induction false} AfterAsOften(times: seq<int>, cutoff: int, t: int)
    ensures multiset(After(times, cutoff))[t] == if t > cutoff then multiset(times)[t] else 0
  {
    if times != [] {
      var n := |times| - 1;
      AfterAsOften(times[..n], cutoff, t);
      assert times == times[..n] + [times[n]];
    }
  }

  /**
   What an attempt leaves in its address's log: the times of the last sixty seconds, and its own
   if it was allowed; other addresses' logs stay as they are.
   */
  lemma CheckedExactly(log: Log, a: Attempt, t: int, other: string)
    ensures var (after, ok) := Check(log, a);
      && a.ip in after
      && multiset(after[a.ip])[t] ==
           (if a.ip in log && t > a.now - 60_000_000_000 then multiset(log[a.ip])[t] else 0)
           + (if ok && t == a.now then 1 else 0)
      && (other != a.ip ==> (other in after <==> other in log) && (other in log ==> after[other] == log[other]))
  {
    if a.ip in log { AfterAsOften(log[a.ip], a.now - WINDOW, t); }
  }
}
