/**
 The token cache in front of the store: keyed by token prefix, valid for a time to live, filled
 by a first-match scan that verifies bcrypt hashes. SHA-256 and bcrypt are parameters; the
 theorems assume the former to be injective and nothing of the latter.
 */
module TokenCache {
  import opened Wrappers
  import opened TokenStore

  datatype Crypto = Crypto(sha256: string -> string, verify: (string, string) -> bool) {
    ghost predicate CollisionFree() {
      forall x, y :: sha256(x) == sha256(y) ==> x == y
    }
  }

  datatype Entry = Entry(
    tokenID: string, tokenName: string, scope: string, sum: string,
    enabled: bool, expiresAt: Option<int>, cachedAt: int)

  datatype Validated = Validated(tokenID: string, tokenName: string, scope: string)

  const DEFAULT_TTL: int := 300_000_000_000
  const PREFIX_LENGTH := 8

  function PrefixOf(plain: string): string {
    if |plain| > PREFIX_LENGTH then plain[..PREFIX_LENGTH] else plain
  }

  predicate Expired(expiresAt: Option<int>, now: int) { expiresAt.Some? && expiresAt.value < now }

  /** A token the scan stops at. */
  predicate Accepts(c: Crypto, t: APIToken, plain: string, now: int) {
    t.enabled && !Expired(t.expiresAt, now) && c.verify(plain, t.hash)
  }

  /** The position of the first token that accepts, or the length of the list. */
  function FirstMatch(c: Crypto, tokens: seq<APIToken>, plain: string, now: int): (i: nat)
    ensures i <= |tokens|
    ensures i < |tokens| ==> Accepts(c, tokens[i], plain, now)
    ensures forall j :: 0 <= j < i ==> !Accepts(c, tokens[j], plain, now)
  {
    if tokens == [] || Accepts(c, tokens[0], plain, now) then 0 else 1 + FirstMatch(c, tokens[1..], plain, now)
  }

  function ResultOf(t: APIToken): Validated { Validated(t.id, t.name, t.scope) }

  /** The answer of the scan alone. */
  function Scan(c: Crypto, tokens: seq<APIToken>, plain: string, now: int): Option<Validated> {
    var i := FirstMatch(c, tokens, plain, now);
    if i < |tokens| then Some(ResultOf(tokens[i])) else None
  }

  type Entries = map<string, Entry>

  predicate Hit(c: Crypto, entries: Entries, ttl: int, plain: string, now: int) {
    var p := PrefixOf(plain);
    p in entries && now - entries[p].cachedAt < ttl && entries[p].enabled && entries[p].sum == c.sha256(plain)
  }

  function EntryOf(c: Crypto, t: APIToken, plain: string, now: int): Entry {
    Entry(t.id, t.name, t.scope, c.sha256(plain), t.enabled, t.expiresAt, now)
  }

  /** The answer of the cache, and the entries it leaves. */
  function Answer(c: Crypto, entries: Entries, ttl: int, tokens: seq<APIToken>, plain: string, now: int)
    : (Option<Validated>, Entries)
  {
    if Hit(c, entries, ttl, plain, now) then
      var e := entries[PrefixOf(plain)];
      (Some(Validated(e.tokenID, e.tokenName, e.scope)), entries)
    else
      var i := FirstMatch(c, tokens, plain, now);
      if i < |tokens| then (Some(ResultOf(tokens[i])), entries[tokens[i].prefix := EntryOf(c, tokens[i], plain, now)])
      else (None, entries)
  }

  class Cache {
    const crypto: Crypto
    const store: Store
    const ttl: int
    var entries: Entries

    constructor (crypto: Crypto, store: Store, ttl: int)
      ensures this.crypto == crypto && this.store == store && entries == map[]
      ensures this.ttl == if ttl == 0 then 300_000_000_000 else ttl
    {
      this.crypto, this.store, entries := crypto, store, map[];
      this.ttl := if ttl == 0 then DEFAULT_TTL else ttl;
    }

    /** Reads the clock once; a token list that cannot be loaded is an error, unless the cache hits. */
    method Validate(plain: string, now: int, loads: bool) returns (r: Result<Option<Validated>, StoreError>)
      modifies this`entries
      ensures r.Err? <==> !loads && !Hit(crypto, old(entries), ttl, plain, now)
      ensures r.Err? ==> r.error == IOError && entries == old(entries)
      ensures r.Ok? ==> (r.value, entries) == Answer(crypto, old(entries), ttl, store.tokens, plain, now)
    {
      var prefix := PrefixOf(plain);
      var sum := crypto.sha256(plain);
      if prefix in entries {
        var e := entries[prefix];
        if now - e.cachedAt < ttl && e.enabled && sum == e.sum {
          return Ok(Some(Validated(e.tokenID, e.tokenName, e.scope)));
        }
      }
      if !loads {
        return Err(IOError);
      }
      var tokens := store.tokens;
      for i := 0 to |tokens|
        invariant entries == old(entries)
        invariant forall j :: 0 <= j < i ==> !Accepts(crypto, tokens[j], plain, now)
      {
        var t := tokens[i];
        if !t.enabled || Expired(t.expiresAt, now) {
          continue;
        }
        if crypto.verify(plain, t.hash) {
          assert FirstMatch(crypto, tokens, plain, now) == i;
          entries := entries[t.prefix := EntryOf(crypto, t, plain, now)];
          return Ok(Some(ResultOf(t)));
        }
      }
      r := Ok(None);
    }

    method Invalidate(prefix: string)
      modifies this`entries
      ensures entries == old(entries) - {prefix}
    {
      entries := entries - {prefix};
    }

    method InvalidateAll()
      modifies this`entries
      ensures entries == map[]
    {
      entries := map[];
    }

    /** The revoke handler: find the token, disable it, drop the cache entry under its prefix. */
    method Revoke(id: string, loads: bool, saves: bool) returns (ok: bool)
      modifies this`entries, store
      ensures ok == (Find(old(store.tokens), id) < |old(store.tokens)| && loads && saves)
      ensures ok ==> SoftDeleted(old(store.tokens), id) == Ok(store.tokens)
      ensures ok ==> entries == old(entries) - {old(store.tokens)[Find(old(store.tokens), id)].prefix}
      ensures !ok ==> store.tokens == old(store.tokens) && entries == old(entries)
    {
      var token := store.GetByID(id, loads);
      if token.Err? {
        assert loads ==> Find(store.tokens, id) == |store.tokens|;
        return false;
      }
      var error := store.SoftDelete(id, saves);
      if error.Some? {
        return false;
      }
      Invalidate(token.value.prefix);
      ok := true;
    }
  }

  // ---------- hits and misses ----------

  /** The first eight characters of a plain text, or all of a shorter one. */
  lemma PrefixIsEight(plain: string)
    ensures PrefixOf(plain) <= plain && |PrefixOf(plain)| == if |plain| < 8 then |plain| else 8
  {
  }

  /**
   A plain text cached less than ttl ago under its prefix, enabled and with the same digest, is
   answered with the entry's id, name and scope, whatever the store holds by now.
   */
  lemma HitAnswers(c: Crypto, entries: Entries, ttl: int, tokens: seq<APIToken>, plain: string, p: string, now: int)
    requires p == if |plain| > 8 then plain[..8] else plain
    requires p in entries && now - entries[p].cachedAt < ttl && entries[p].enabled && entries[p].sum == c.sha256(plain)
    ensures Answer(c, entries, ttl, tokens, plain, now) ==
      (Some(Validated(entries[p].tokenID, entries[p].tokenName, entries[p].scope)), entries)
  {
  }

  /** No fresh enabled entry under the prefix of the plain text has its digest. */
  predicate Misses(c: Crypto, entries: Entries, ttl: int, plain: string, now: int) {
    var p := if |plain| > 8 then plain[..8] else plain;
    p !in entries || now - entries[p].cachedAt >= ttl || !entries[p].enabled || entries[p].sum != c.sha256(plain)
  }

  /**
   On a miss the first enabled, unexpired token whose bcrypt hash matches is returned, and
   cached under its own prefix from now on.
   */
  lemma MissFindsFirst(c: Crypto, entries: Entries, ttl: int, tokens: seq<APIToken>, plain: string, now: int, i: nat)
    requires Misses(c, entries, ttl, plain, now) && i < |tokens|
    requires var t := tokens[i];
      t.enabled && (t.expiresAt == None || now <= t.expiresAt.value) && c.verify(plain, t.hash)
    requires forall j :: 0 <= j < i ==>
      (!tokens[j].enabled || !c.verify(plain, tokens[j].hash) ||
       (tokens[j].expiresAt.Some? && tokens[j].expiresAt.value < now))
    ensures var t := tokens[i];
      Answer(c, entries, ttl, tokens, plain, now) ==
        (Some(Validated(t.id, t.name, t.scope)),
         entries[t.prefix := Entry(t.id, t.name, t.scope, c.sha256(plain), true, t.expiresAt, now)])
  {
  }

  /** On a miss without such a token there is no answer and nothing is cached. */
  lemma MissFindsNone(c: Crypto, entries: Entries, ttl: int, tokens: seq<APIToken>, plain: string, now: int)
    requires Misses(c, entries, ttl, plain, now)
    requires forall j :: 0 <= j < |tokens| ==>
      (!tokens[j].enabled || !c.verify(plain, tokens[j].hash) ||
       (tokens[j].expiresAt.Some? && tokens[j].expiresAt.value < now))
    ensures Answer(c, entries, ttl, tokens, plain, now) == (None, entries)
  {
  }

  // ---------- the cached answer against the scan ----------

  /** Later, over the same tokens, the first match is the same iff that token has not expired. */
  lemma FirstMatchLater(c: Crypto, tokens: seq<APIToken>, plain: string, t0: int, t1: int)
    requires t0 <= t1 && FirstMatch(c, tokens, plain, t0) < |tokens|
    ensures var i := FirstMatch(c, tokens, plain, t0);
      FirstMatch(c, tokens, plain, t1) == i <==> !Expired(tokens[i].expiresAt, t1)
  {
  }

  /** Every entry is what the scan of these tokens found when the entry was cached. */
  ghost predicate Coherent(c: Crypto, entries: Entries, tokens: seq<APIToken>, now: int) {
    forall p :: p in entries ==> FoundByScan(c, entries[p], tokens, now)
  }

  ghost predicate FoundByScan(c: Crypto, e: Entry, tokens: seq<APIToken>, now: int) {
    e.cachedAt <= now && exists plain :: IsScanEntry(c, e, tokens, plain)
  }

  ghost predicate IsScanEntry(c: Crypto, e: Entry, tokens: seq<APIToken>, plain: string) {
    var i := FirstMatch(c, tokens, plain, e.cachedAt);
    i < |tokens| && e == EntryOf(c, tokens[i], plain, e.cachedAt)
  }

  /** While the store does not change, validating keeps the cache coherent. */
  lemma ValidateKeepsCoherent(c: Crypto, entries: Entries, ttl: int, tokens: seq<APIToken>, plain: string, now: int)
    requires Coherent(c, entries, tokens, now)
    ensures Coherent(c, Answer(c, entries, ttl, tokens, plain, now).1, tokens, now)
  {
    var after := Answer(c, entries, ttl, tokens, plain, now).1;
    forall p | p in after ensures FoundByScan(c, after[p], tokens, now) {
      if p in entries && after[p] == entries[p] {
        assert FoundByScan(c, entries[p], tokens, now);
      } else {
        assert IsScanEntry(c, after[p], tokens, plain);
      }
    }
  }

  /**
   With the store unchanged since the entry was cached, the cache answers as the scan would
   now, except exactly when the cached token has expired in between.
   */
  lemma CachedAnswerIsScan(c: Crypto, entries: Entries, ttl: int, tokens: seq<APIToken>, plain: string, now: int)
    requires c.CollisionFree() && UniqueIds(tokens) && Coherent(c, entries, tokens, now)
    ensures Answer(c, entries, ttl, tokens, plain, now).0 == Scan(c, tokens, plain, now) <==>
      !(Hit(c, entries, ttl, plain, now) && Expired(entries[PrefixOf(plain)].expiresAt, now))
  {
  }

  // ---------- runs ----------

  datatype State = State(tokens: seq<APIToken>, entries: Entries, now: int)

  datatype Op =
    | Tick(d: nat)
    | Validate(plain: string)
    | Create(t: APIToken)
    | Update(t: APIToken)
    | Revoke(id: string)
    | Invalidate(prefix: string)
    | InvalidateAll

  function Apply(s: State, outcome: Outcome): State {
    if outcome.Ok? then s.(tokens := outcome.value) else s
  }

  /** A step of the daemon; an operation whose load or save fails is a step that changes nothing. */
  function Step(c: Crypto, ttl: int, s: State, op: Op): State {
    match op
    case Tick(d) => s.(now := s.now + d)
    case Validate(plain) => s.(entries := Answer(c, s.entries, ttl, s.tokens, plain, s.now).1)
    case Create(t) => Apply(s, Created(s.tokens, t))
    case Update(t) => Apply(s, Updated(s.tokens, t))
    case Revoke(id) =>
      var i := Find(s.tokens, id);
      if i == |s.tokens| then s
      else Apply(s, SoftDeleted(s.tokens, id)).(entries := s.entries - {s.tokens[i].prefix})
    case Invalidate(p) => s.(entries := s.entries - {p})
    case InvalidateAll => s.(entries := map[])
  }

  function Run(c: Crypto, ttl: int, s: State, ops: seq<Op>): State {
    if ops == [] then s else Step(c, ttl, Run(c, ttl, s, ops[..|ops| - 1]), ops[|ops| - 1])
  }

  /** Steps that leave the store alone. */
  predicate KeepsStore(op: Op) { op.Tick? || op.Validate? || op.Invalidate? || op.InvalidateAll? }

  lemma StepKeepsCoherent(c: Crypto, ttl: int, s: State, op: Op)
    requires Coherent(c, s.entries, s.tokens, s.now) && KeepsStore(op)
    ensures var s' := Step(c, ttl, s, op); s'.tokens == s.tokens && Coherent(c, s'.entries, s'.tokens, s'.now)
  {
    if op.Validate? {
      ValidateKeepsCoherent(c, s.entries, ttl, s.tokens, op.plain, s.now);
    } else {
      var s' := Step(c, ttl, s, op);
      forall p | p in s'.entries ensures FoundByScan(c, s'.entries[p], s'.tokens, s'.now) {
        assert FoundByScan(c, s.entries[p], s.tokens, s.now);
      }
    }
  }

  lemma {:induction false} RunKeepsCoherent(c: Crypto, ttl: int, s0: State, ops: seq<Op>)
    requires s0.entries == map[] && forall i :: 0 <= i < |ops| ==> KeepsStore(ops[i])
    ensures var s := Run(c, ttl, s0, ops); s.tokens == s0.tokens && Coherent(c, s.entries, s.tokens, s.now)
  {
    if ops != [] {
      RunKeepsCoherent(c, ttl, s0, ops[..|ops| - 1]);
      StepKeepsCoherent(c, ttl, Run(c, ttl, s0, ops[..|ops| - 1]), ops[|ops| - 1]);
    }
  }

  /**
   On every run from an empty cache in which the store does not change, whatever is validated,
   invalidated and waited for in between: the cache answers as the scan of the store would now,
   except exactly when it hits on a token that has expired since it was cached.
   */
  lemma CachedAnswersOverRuns(c: Crypto, ttl: int, s0: State, ops: seq<Op>, plain: string)
    requires c.CollisionFree() && UniqueIds(s0.tokens) && s0.entries == map[]
    requires forall i :: 0 <= i < |ops| ==> KeepsStore(ops[i])
    ensures var s := Run(c, ttl, s0, ops);
      Answer(c, s.entries, ttl, s.tokens, plain, s.now).0 == Scan(c, s0.tokens, plain, s.now) <==>
        !(Hit(c, s.entries, ttl, plain, s.now) && Expired(s.entries[PrefixOf(plain)].expiresAt, s.now))
  {
    RunKeepsCoherent(c, ttl, s0, ops);
    var s := Run(c, ttl, s0, ops);
    CachedAnswerIsScan(c, s.entries, ttl, s.tokens, plain, s.now);
  }

  /** At that moment the store held the token this answer names, and it accepts this plain text. */
  predicate Vouched(c: Crypto, s: State, r: Validated, plain: string) {
    exists t :: t in s.tokens && r == ResultOf(t) && Accepts(c, t, plain, s.now)
  }

  /** An entry was cached at an earlier moment of the run, when the store vouched for it. */
  ghost predicate Backed(c: Crypto, ttl: int, s0: State, ops: seq<Op>, e: Entry) {
    exists k: nat, plain :: BackedAt(c, ttl, s0, ops, e, k, plain)
  }

  ghost predicate BackedAt(c: Crypto, ttl: int, s0: State, ops: seq<Op>, e: Entry, k: nat, plain: string) {
    && k <= |ops|
    && e.sum == c.sha256(plain)
    && e.cachedAt == Run(c, ttl, s0, ops[..k]).now
    && Vouched(c, Run(c, ttl, s0, ops[..k]), Validated(e.tokenID, e.tokenName, e.scope), plain)
  }

  lemma BackedLater(c: Crypto, ttl: int, s0: State, ops: seq<Op>, e: Entry)
    requires ops != [] && Backed(c, ttl, s0, ops[..|ops| - 1], e)
    ensures Backed(c, ttl, s0, ops, e)
  {
    var init := ops[..|ops| - 1];
    var k: nat, plain :| BackedAt(c, ttl, s0, init, e, k, plain);
    assert init[..k] == ops[..k];
    assert BackedAt(c, ttl, s0, ops, e, k, plain);
  }

  lemma NewEntryBacked(c: Crypto, ttl: int, s0: State, ops: seq<Op>, plain: string, i: nat)
    requires var s := Run(c, ttl, s0, ops); i < |s.tokens| && Accepts(c, s.tokens[i], plain, s.now)
    ensures var s := Run(c, ttl, s0, ops); Backed(c, ttl, s0, ops, EntryOf(c, s.tokens[i], plain, s.now))
  {
    var s := Run(c, ttl, s0, ops);
    assert s.tokens[i] in s.tokens;
    assert ops[..|ops|] == ops;
    assert BackedAt(c, ttl, s0, ops, EntryOf(c, s.tokens[i], plain, s.now), |ops|, plain);
  }

  lemma {:induction false} EntriesAreBacked(c: Crypto, ttl: int, s0: State, ops: seq<Op>, p: string)
    requires s0.entries == map[]
    ensures var s := Run(c, ttl, s0, ops); p in s.entries ==> Backed(c, ttl, s0, ops, s.entries[p])
  {
    if ops != [] {
      var init, op := ops[..|ops| - 1], ops[|ops| - 1];
      var before, s := Run(c, ttl, s0, init), Run(c, ttl, s0, ops);
      EntriesAreBacked(c, ttl, s0, init, p);
      if p in s.entries {
        if p in before.entries && s.entries[p] == before.entries[p] {
          BackedLater(c, ttl, s0, ops, s.entries[p]);
        } else {
          NewEntryBacked(c, ttl, s0, init, op.plain, FirstMatch(c, before.tokens, op.plain, before.now));
          BackedLater(c, ttl, s0, ops, s.entries[p]);
        }
      }
    }
  }

  /**
   Bounded staleness: on every run from an empty cache, an accepted Validate answers with the
   id, name and scope of a token that was enabled, unexpired and matching by its bcrypt hash in
   the store now, or less than ttl ago.
   */
  lemma AcceptedTokenWasGood(c: Crypto, ttl: int, s0: State, ops: seq<Op>, plain: string) returns (k: nat)
    requires c.CollisionFree() && s0.entries == map[]
    requires var s := Run(c, ttl, s0, ops); Answer(c, s.entries, ttl, s.tokens, plain, s.now).0.Some?
    ensures k <= |ops|
    ensures var s, past := Run(c, ttl, s0, ops), Run(c, ttl, s0, ops[..k]);
      var r := Answer(c, s.entries, ttl, s.tokens, plain, s.now).0.value;
      && (exists t :: t in past.tokens && r == Validated(t.id, t.name, t.scope) && t.enabled
            && (t.expiresAt == None || past.now <= t.expiresAt.value) && c.verify(plain, t.hash))
      && (k == |ops| || s.now - past.now < ttl)
  {
    k := AnswerIsVouched(c, ttl, s0, ops, plain);
    var s, past := Run(c, ttl, s0, ops), Run(c, ttl, s0, ops[..k]);
    var r := Answer(c, s.entries, ttl, s.tokens, plain, s.now).0.value;
    var t :| t in past.tokens && r == ResultOf(t) && Accepts(c, t, plain, past.now);
  }

  lemma AnswerIsVouched(c: Crypto, ttl: int, s0: State, ops: seq<Op>, plain: string) returns (k: nat)
    requires c.CollisionFree() && s0.entries == map[]
    requires var s := Run(c, ttl, s0, ops); Answer(c, s.entries, ttl, s.tokens, plain, s.now).0.Some?
    ensures var s := Run(c, ttl, s0, ops);
      && k <= |ops|
      && Vouched(c, Run(c, ttl, s0, ops[..k]), Answer(c, s.entries, ttl, s.tokens, plain, s.now).0.value, plain)
      && (k == |ops| || s.now - Run(c, ttl, s0, ops[..k]).now < ttl)
  {
    var s := Run(c, ttl, s0, ops);
    if Hit(c, s.entries, ttl, plain, s.now) {
      EntriesAreBacked(c, ttl, s0, ops, PrefixOf(plain));
      var cached;
      k, cached :| BackedAt(c, ttl, s0, ops, s.entries[PrefixOf(plain)], k, cached);
    } else {
      k := |ops|;
      assert ops[..k] == ops;
      var i := FirstMatch(c, s.tokens, plain, s.now);
      assert s.tokens[i] in s.tokens;
    }
  }

  // ---------- revocation ----------

  /** No enabled token has this id, and no cache entry speaks for it. */
  predicate Dead(s: State, id: string) {
    && (forall t :: t in s.tokens && t.id == id ==> !t.enabled)
    && (forall p :: p in s.entries ==> s.entries[p].tokenID != id)
  }

  predicate Revives(op: Op, id: string) {
    || (op.Create? && op.t.id == id && op.t.enabled)
    || (op.Update? && op.t.id == id && op.t.enabled)
  }

  lemma StepKeepsDead(c: Crypto, ttl: int, s: State, op: Op, id: string)
    requires Dead(s, id) && !Revives(op, id)
    ensures Dead(Step(c, ttl, s, op), id)
  {
  }

  lemma {:induction false} DeadStaysDead(c: Crypto, ttl: int, s: State, ops: seq<Op>, id: string)
    requires Dead(s, id) && forall op :: op in ops ==> !Revives(op, id)
    ensures Dead(Run(c, ttl, s, ops), id)
  {
    if ops != [] {
      DeadStaysDead(c, ttl, s, ops[..|ops| - 1], id);
      StepKeepsDead(c, ttl, Run(c, ttl, s, ops[..|ops| - 1]), ops[|ops| - 1], id);
    }
  }

  lemma DeadIsRefused(c: Crypto, ttl: int, s: State, plain: string, id: string)
    requires Dead(s, id)
    ensures var r := Answer(c, s.entries, ttl, s.tokens, plain, s.now).0; r.Some? ==> r.value.tokenID != id
  {
  }

  /** Every entry for this id is kept under this prefix. */
  predicate KeptUnder(entries: Entries, id: string, prefix: string) {
    forall p :: p in entries && entries[p].tokenID == id ==> p == prefix
  }

  /** Revoking kills the id at once iff no cache entry for it sits under another prefix. */
  lemma RevokeKillsIff(c: Crypto, ttl: int, s: State, id: string)
    requires UniqueIds(s.tokens) && Find(s.tokens, id) < |s.tokens|
    ensures Dead(Step(c, ttl, s, Revoke(id)), id) <==> KeptUnder(s.entries, id, s.tokens[Find(s.tokens, id)].prefix)
  {
    var i := Find(s.tokens, id);
    var s' := Step(c, ttl, s, Revoke(id));
    assert forall t :: t in s'.tokens && t.id == id ==> !t.enabled;
    if Dead(s', id) {
      forall p | p in s.entries && s.entries[p].tokenID == id ensures p == s.tokens[i].prefix {
        assert p !in s'.entries;
      }
    }
  }

  /**
   What can still speak for an id after its revocation: no token with it is enabled, its entries
   are ones that were there at the revocation, and the clock has not gone back.
   */
  predicate OnlyOldEntries(s1: State, s: State, id: string) {
    && (forall t :: t in s.tokens && t.id == id ==> !t.enabled)
    && (forall p :: p in s.entries && s.entries[p].tokenID == id ==> p in s1.entries && s1.entries[p] == s.entries[p])
    && s1.now <= s.now
  }

  lemma StepKeepsOnlyOld(c: Crypto, ttl: int, s1: State, s: State, op: Op, id: string)
    requires OnlyOldEntries(s1, s, id) && !Revives(op, id)
    ensures OnlyOldEntries(s1, Step(c, ttl, s, op), id)
  {
  }

  lemma {:induction false} RunKeepsOnlyOld(c: Crypto, ttl: int, s: State, ops: seq<Op>, id: string)
    requires OnlyOldEntries(s, s, id) && NoneRevives(ops, id)
    ensures OnlyOldEntries(s, Run(c, ttl, s, ops), id)
  {
    if ops != [] {
      RunKeepsOnlyOld(c, ttl, s, ops[..|ops| - 1], id);
      StepKeepsOnlyOld(c, ttl, s, Run(c, ttl, s, ops[..|ops| - 1]), ops[|ops| - 1], id);
    }
  }

  predicate NoneRevives(ops: seq<Op>, id: string) { forall i :: 0 <= i < |ops| ==> !Revives(ops[i], id) }

  /** Validating this plain text now answers with this id. */
  predicate Returns(c: Crypto, ttl: int, s: State, plain: string, id: string) {
    var r := Answer(c, s.entries, ttl, s.tokens, plain, s.now).0;
    r.Some? && r.value.tokenID == id
  }

  /** The plain text hits an entry for this id. */
  predicate HitsEntryOf(c: Crypto, ttl: int, s: State, plain: string, id: string) {
    Hit(c, s.entries, ttl, plain, s.now) && s.entries[PrefixOf(plain)].tokenID == id
  }

  lemma ReturnsOnlyFromOldEntry(c: Crypto, ttl: int, s1: State, s: State, plain: string, id: string)
    requires OnlyOldEntries(s1, s, id) && Returns(c, ttl, s, plain, id)
    ensures HitsEntryOf(c, ttl, s1, plain, id)
  {
  }

  /** The id is returned for this plain text on some run after the revoke that does not enable it again. */
  ghost predicate ReturnedAfterRevoke(c: Crypto, ttl: int, s: State, plain: string, id: string) {
    exists ops :: NoneRevives(ops, id) && Returns(c, ttl, Run(c, ttl, Step(c, ttl, s, Revoke(id)), ops), plain, id)
  }

  /**
   From any state with unique ids: a revoked id is returned on some later run iff the plain text
   hits an entry for it at the moment of the revoke, and that entry is not under the token's prefix.
   */
  lemma ReturnedAfterRevokeIff(c: Crypto, ttl: int, s: State, plain: string, id: string)
    requires UniqueIds(s.tokens) && Find(s.tokens, id) < |s.tokens|
    ensures ReturnedAfterRevoke(c, ttl, s, plain, id) <==>
      HitsEntryOf(c, ttl, s, plain, id) && PrefixOf(plain) != s.tokens[Find(s.tokens, id)].prefix
  {
    var s1 := Step(c, ttl, s, Revoke(id));
    assert OnlyOldEntries(s1, s1, id);
    if ops :| NoneRevives(ops, id) && Returns(c, ttl, Run(c, ttl, s1, ops), plain, id) {
      RunKeepsOnlyOld(c, ttl, s1, ops, id);
      ReturnsOnlyFromOldEntry(c, ttl, s1, Run(c, ttl, s1, ops), plain, id);
    }
    if HitsEntryOf(c, ttl, s, plain, id) && PrefixOf(plain) != s.tokens[Find(s.tokens, id)].prefix {
      assert Run(c, ttl, s1, []) == s1;
      assert NoneRevives([], id) && Returns(c, ttl, Run(c, ttl, s1, []), plain, id);
    }
  }

  /** No operation of the run changes a token's prefix, and new tokens bring new ids. */
  predicate StablePrefix(s: State, op: Op) {
    match op
    case Create(t) => Find(s.tokens, t.id) == |s.tokens|
    case Update(t) => Find(s.tokens, t.id) < |s.tokens| ==> s.tokens[Find(s.tokens, t.id)].prefix == t.prefix
    case _ => true
  }

  /** Ids are unique and every entry is kept under the prefix its token has in the store. */
  predicate Filed(s: State) {
    UniqueIds(s.tokens) && forall p :: p in s.entries ==> FiledUnder(s, s.entries[p].tokenID, p)
  }

  predicate FiledUnder(s: State, id: string, p: string) {
    Find(s.tokens, id) < |s.tokens| && s.tokens[Find(s.tokens, id)].prefix == p
  }

  lemma FindAfterReplace(tokens: seq<APIToken>, k: nat, t: APIToken, id: string)
    requires UniqueIds(tokens) && k < |tokens| && tokens[k].id == t.id
    ensures Find(tokens[k := t], id) == Find(tokens, id)
  {
    var i, j := Find(tokens, id), Find(tokens[k := t], id);
    if i < |tokens| { assert tokens[k := t][i].id == id; }
    if j < |tokens| { assert tokens[j].id == id; }
  }

  lemma StepKeepsFiled(c: Crypto, ttl: int, s: State, op: Op)
    requires Filed(s) && StablePrefix(s, op)
    ensures Filed(Step(c, ttl, s, op))
  {
    var s' := Step(c, ttl, s, op);
    forall p | p in s'.entries ensures FiledUnder(s', s'.entries[p].tokenID, p) {
      StepKeepsEntryFiled(c, ttl, s, op, p);
    }
    match op
    case Create(t) => OperationsKeepIdsUnique(s.tokens, t, "");
    case Update(t) => OperationsKeepIdsUnique(s.tokens, t, "");
    case Revoke(id) => if Find(s.tokens, id) < |s.tokens| { OperationsKeepIdsUnique(s.tokens, s.tokens[0], id); }
    case _ =>
  }

  lemma StepKeepsEntryFiled(c: Crypto, ttl: int, s: State, op: Op, p: string)
    requires Filed(s) && StablePrefix(s, op) && p in Step(c, ttl, s, op).entries
    ensures FiledUnder(Step(c, ttl, s, op), Step(c, ttl, s, op).entries[p].tokenID, p)
  {
    if op.Validate? {
      ValidateKeepsEntryFiled(c, ttl, s, op.plain, p);
    } else {
      assert p in s.entries && Step(c, ttl, s, op).entries[p] == s.entries[p];
      assert FiledUnder(s, s.entries[p].tokenID, p);
      StepKeepsPlace(c, ttl, s, op, s.entries[p].tokenID);
    }
  }

  lemma ValidateKeepsEntryFiled(c: Crypto, ttl: int, s: State, plain: string, p: string)
    requires Filed(s) && p in Step(c, ttl, s, Validate(plain)).entries
    ensures FiledUnder(s, Step(c, ttl, s, Validate(plain)).entries[p].tokenID, p)
  {
  }

  /** A stored token keeps its position and its prefix. */
  lemma StepKeepsPlace(c: Crypto, ttl: int, s: State, op: Op, id: string)
    requires UniqueIds(s.tokens) && StablePrefix(s, op) && !op.Validate? && Find(s.tokens, id) < |s.tokens|
    ensures var s' := Step(c, ttl, s, op); var i := Find(s.tokens, id);
      Find(s'.tokens, id) == i < |s'.tokens| && s'.tokens[i].prefix == s.tokens[i].prefix
  {
    match op
    case Create(t) =>
      if Created(s.tokens, t).Ok? { FindAfterAppend(s.tokens, t, id); }
    case Update(t) =>
      if Updated(s.tokens, t).Ok? { FindAfterReplace(s.tokens, Find(s.tokens, t.id), t, id); }
    case Revoke(r) =>
      var i := Find(s.tokens, r);
      if i < |s.tokens| { FindAfterReplace(s.tokens, i, s.tokens[i].(enabled := false), id); }
    case _ =>
  }

  lemma FindAfterAppend(tokens: seq<APIToken>, t: APIToken, id: string)
    requires Find(tokens, id) < |tokens|
    ensures Find(tokens + [t], id) == Find(tokens, id)
  {
    var i := Find(tokens, id);
    assert (tokens + [t])[i] == tokens[i];
  }

  predicate Stable(c: Crypto, ttl: int, s: State, ops: seq<Op>) {
    ops == [] ||
    (Stable(c, ttl, s, ops[..|ops| - 1]) && StablePrefix(Run(c, ttl, s, ops[..|ops| - 1]), ops[|ops| - 1]))
  }

  lemma {:induction false} RunKeepsFiled(c: Crypto, ttl: int, s: State, ops: seq<Op>)
    requires Filed(s) && Stable(c, ttl, s, ops)
    ensures Filed(Run(c, ttl, s, ops))
  {
    if ops != [] {
      RunKeepsFiled(c, ttl, s, ops[..|ops| - 1]);
      StepKeepsFiled(c, ttl, Run(c, ttl, s, ops[..|ops| - 1]), ops[|ops| - 1]);
    }
  }

  /**
   After a revoke, on every run in which prefixes never change, the id is not returned by any
   later Validate until some operation enables it again.
   */
  lemma RevokedIsNeverReturned(
    c: Crypto, ttl: int, s0: State, before: seq<Op>, id: string, later: seq<Op>, plain: string)
    requires s0.entries == map[] && UniqueIds(s0.tokens) && Stable(c, ttl, s0, before)
    requires Find(Run(c, ttl, s0, before).tokens, id) < |Run(c, ttl, s0, before).tokens|
    requires forall op :: op in later ==> !Revives(op, id)
    ensures var s := Run(c, ttl, Step(c, ttl, Run(c, ttl, s0, before), Revoke(id)), later);
      var r := Answer(c, s.entries, ttl, s.tokens, plain, s.now).0;
      r.Some? ==> r.value.tokenID != id
  {
    var s1 := Run(c, ttl, s0, before);
    RunKeepsFiled(c, ttl, s0, before);
    forall p | p in s1.entries && s1.entries[p].tokenID == id ensures p == s1.tokens[Find(s1.tokens, id)].prefix {
      assert FiledUnder(s1, id, p);
    }
    RevokeKillsIff(c, ttl, s1, id);
    DeadStaysDead(c, ttl, Step(c, ttl, s1, Revoke(id)), later, id);
    DeadIsRefused(c, ttl, Run(c, ttl, Step(c, ttl, s1, Revoke(id)), later), plain, id);
  }

  /** An Update that moves a cached token to a new prefix lets it outlive its revocation. */
  lemma PrefixChangeOutlivesRevoke(c: Crypto, ttl: int, t: APIToken, moved: APIToken, plain: string, now: int)
    requires ttl > 0 && Accepts(c, t, plain, now) && t.prefix == PrefixOf(plain)
    requires moved == t.(prefix := t.prefix + "x")
    ensures var s1 := Step(c, ttl, State([t], map[], now), Validate(plain));
      var s2 := Step(c, ttl, Step(c, ttl, s1, Update(moved)), Revoke(t.id));
      Answer(c, s2.entries, ttl, s2.tokens, plain, now).0 == Some(ResultOf(t))
  {
  }
}
