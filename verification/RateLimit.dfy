/** The fixed-window rate limiter. */
module RateLimit {
  import opened Common

  type Tenant = string

  /** Nanoseconds. */
  const MINUTE := 60_000_000_000

  datatype Key = Key(tenant: Tenant, minute: nat)

  /** A counter that may be due to expire; a counter past its expiry is as good as absent. */
  datatype Entry = Entry(count: int, expiresAt: Option<nat>)

  type Db = map<Key, Entry>

  /**
   * Whether Redis answers both commands, or one of them reports an error: one that failed, or, if lost, one
   * that took effect.
   */
  datatype Fate = Answers | IncrFails | IncrLost | ExpireFails | ExpireLost

  /** The call adds one to the counter. */
  predicate Increments(fate: Fate) {
    !fate.IncrFails?
  }

  datatype Call = Call(tenant: Tenant, now: nat, fate: Fate)

  function KeyAt(tenant: Tenant, now: nat): Key {
    Key(tenant, now / MINUTE)
  }

  predicate Alive(db: Db, key: Key, now: nat) {
    key in db && (db[key].expiresAt.Some? ==> now < db[key].expiresAt.value)
  }

  /** INCR: continues a live counter and starts a dead one afresh, without expiry. */
  function Incremented(db: Db, key: Key, now: nat): Db {
    db[key := if Alive(db, key, now) then db[key].(count := db[key].count + 1) else Entry(1, None)]
  }

  /** The counters after a call and whether the request may pass; an error lets nothing pass. */
  function Handled(db: Db, call: Call, limit: int): (Db, bool) {
    var key := KeyAt(call.tenant, call.now);
    if call.fate.IncrFails? then (db, false)
    else
      var db' := Incremented(db, key, call.now);
      if call.fate.IncrLost? then (db', false)
      else if db'[key].count != 1 then (db', db'[key].count <= limit)
      else if call.fate.ExpireFails? then (db', false)
      else (db'[key := Entry(1, Some(call.now + MINUTE))], !call.fate.ExpireLost? && 1 <= limit)
  }

  class RedisRateLimiter {
    var db: Db

    constructor ()
      ensures db == map[]
    {
      db := map[];
    }

    method Allow(tenant: Tenant, limit: int, now: nat, fate: Fate) returns (r: Result<bool, string>)
      modifies this
      ensures (db, r == Ok(true)) == Handled(old(db), Call(tenant, now, fate), limit)
      // An error is reported exactly when a command that was sent reports one.
      ensures r.Err? <==> || fate.IncrFails? || fate.IncrLost?
                          || ((fate.ExpireFails? || fate.ExpireLost?) && db[KeyAt(tenant, now)].count == 1)
      ensures r.Ok? ==> r.value == (db[KeyAt(tenant, now)].count <= limit)
    {
      var key := KeyAt(tenant, now);
      if fate.IncrFails? {
        return Err("ratelimit: incr");
      }
      var count := 1;
      if key in db && (db[key].expiresAt.None? || now < db[key].expiresAt.value) {
        count := db[key].count + 1;
        db := db[key := db[key].(count := count)];
      } else {
        db := db[key := Entry(1, None)];
      }
      if fate.IncrLost? {
        return Err("ratelimit: incr");
      }
      if count == 1 {
        if !fate.ExpireFails? {
          db := db[key := Entry(1, Some(now + MINUTE))];
        }
        if fate.ExpireFails? || fate.ExpireLost? {
          return Err("ratelimit: expire");
        }
      }
      return Ok(count <= limit);
    }
  }

  /** The first hit of a minute starts a counter at one, due to expire sixty seconds later. */
  lemma FirstHitExpires(db: Db, tenant: Tenant, now: nat, limit: int)
    requires !Alive(db, KeyAt(tenant, now), now)
    ensures var after := Handled(db, Call(tenant, now, Answers), limit).0;
            && after[KeyAt(tenant, now)] == Entry(1, Some(now + 60_000_000_000))
            && forall key :: key != KeyAt(tenant, now) ==>
                 (key in after <==> key in db) && (key in db ==> after[key] == db[key])
  {
  }

  /** Keys change exactly at full minutes, sixty thousand million nanoseconds apart. */
  lemma KeysChangeByMinute(tenant: Tenant, m: nat, now: nat)
    ensures KeyAt(tenant, now) == Key(tenant, m) <==> m * 60_000_000_000 <= now < (m + 1) * 60_000_000_000
  {
  }

  /** Each tenant has its own limit, which does not change. */
  type Limits = Tenant -> int

  ghost function Exec(limits: Limits, calls: seq<Call>): Db {
    if calls == [] then map[]
    else
      var last := calls[|calls| - 1];
      Handled(Exec(limits, calls[..|calls| - 1]), last, limits(last.tenant)).0
  }

  ghost predicate Passes(limits: Limits, calls: seq<Call>, i: nat)
    requires i < |calls|
  {
    Handled(Exec(limits, calls[..i]), calls[i], limits(calls[i].tenant)).1
  }

  /** The clock does not run backwards. */
  ghost predicate Monotone(calls: seq<Call>) {
    forall i, j :: 0 <= i < j < |calls| ==> calls[i].now <= calls[j].now
  }

  /** Increments made for a tenant in a minute. */
  ghost function Hits(calls: seq<Call>, key: Key): nat {
    if calls == [] then 0
    else
      var last := calls[|calls| - 1];
      Hits(calls[..|calls| - 1], key) + if KeyAt(last.tenant, last.now) == key && Increments(last.fate) then 1 else 0
  }

  /** No counter belongs to a minute yet to come, and none is due to expire within its own minute. */
  ghost predicate Timely(db: Db, latest: nat) {
    forall key :: key in db ==>
      && key.minute <= latest / MINUTE
      && (db[key].expiresAt.Some? ==> (key.minute + 1) * MINUTE <= db[key].expiresAt.value)
  }

  ghost predicate CountsHits(db: Db, calls: seq<Call>, key: Key) {
    if key in db then db[key].count == Hits(calls, key) > 0 else Hits(calls, key) == 0
  }

  lemma MinuteBounds(now: nat)
    ensures (now / MINUTE) * MINUTE <= now < (now / MINUTE + 1) * MINUTE
  {
  }

  /** Expiry never resets a counter within its own minute: it counts every hit of that minute. */
  lemma {:induction false} CountersAreExact(limits: Limits, calls: seq<Call>, latest: nat, key: Key)
    requires Monotone(calls) && (calls != [] ==> calls[|calls| - 1].now <= latest)
    ensures Timely(Exec(limits, calls), latest)
    ensures key.minute >= latest / MINUTE ==> CountsHits(Exec(limits, calls), calls, key)
  {
    if calls != [] {
      var front, last := calls[..|calls| - 1], calls[|calls| - 1];
      CountersAreExact(limits, front, last.now, key);
      CountersAreExact(limits, front, last.now, KeyAt(last.tenant, last.now));
      MinuteBounds(last.now);
      HandledKeepsTimely(Exec(limits, front), last, limits(last.tenant));
    }
  }

  lemma HandledKeepsTimely(db: Db, call: Call, limit: int)
    requires Timely(db, call.now)
    ensures Timely(Handled(db, call, limit).0, call.now)
  {
    MinuteBounds(call.now);
  }

  /**
   * A call passes exactly when Redis answers as needed and the minute's hits, this one included, are within
   * the limit.
   */
  lemma PassesIff(limits: Limits, calls: seq<Call>, i: nat)
    requires Monotone(calls) && i < |calls|
    ensures var hits := Hits(calls[..i], KeyAt(calls[i].tenant, calls[i].now));
            Passes(limits, calls, i)
            <==> hits + 1 <= limits(calls[i].tenant)
                 && (calls[i].fate.Answers? || (hits > 0 && (calls[i].fate.ExpireFails? || calls[i].fate.ExpireLost?)))
  {
    var key := KeyAt(calls[i].tenant, calls[i].now);
    CountersAreExact(limits, calls[..i], calls[i].now, key);
    MinuteBounds(calls[i].now);
  }

  /** Requests of a tenant that pass from time `from` up to, not including, `to`. */
  ghost function Passed(limits: Limits, calls: seq<Call>, tenant: Tenant, from: int, to: int): nat {
    if calls == [] then 0
    else
      var n := |calls| - 1;
      Passed(limits, calls[..n], tenant, from, to)
      + if calls[n].tenant == tenant && from <= calls[n].now < to && Passes(limits, calls, n) then 1 else 0
  }

  /** In each minute no tenant gets more requests through than its limit, and no more than it makes. */
  lemma {:induction false} MinuteBound(limits: Limits, calls: seq<Call>, tenant: Tenant, m: nat)
    requires Monotone(calls)
    ensures Passed(limits, calls, tenant, m * MINUTE, (m + 1) * MINUTE) <= Max(0, limits(tenant))
    ensures Passed(limits, calls, tenant, m * MINUTE, (m + 1) * MINUTE) <= Hits(calls, Key(tenant, m))
  {
    if calls != [] {
      var n := |calls| - 1;
      MinuteBound(limits, calls[..n], tenant, m);
      PassesIff(limits, calls, n);
      MinuteBounds(calls[n].now);
    }
  }

  lemma {:induction false} PassedSplits(limits: Limits, calls: seq<Call>, tenant: Tenant,
                                        a: int, b: int, c: int, from: int, to: int)
    requires a <= from <= to <= c && a <= b <= c
    ensures Passed(limits, calls, tenant, from, to)
         <= Passed(limits, calls, tenant, a, b) + Passed(limits, calls, tenant, b, c)
  {
    if calls != [] {
      PassedSplits(limits, calls[..|calls| - 1], tenant, a, b, c, from, to);
    }
  }

  /** Any sixty seconds, wherever they start, touch two minutes and let at most twice the limit through. */
  lemma SixtySecondBound(limits: Limits, calls: seq<Call>, tenant: Tenant, from: nat)
    requires Monotone(calls)
    ensures PassedInSixtySeconds(limits, calls, tenant, from) <= 2 * Max(0, limits(tenant))
  {
    var m := from / MINUTE;
    MinuteBounds(from);
    MinuteBound(limits, calls, tenant, m);
    MinuteBound(limits, calls, tenant, m + 1);
    PassedSplits(limits, calls, tenant, m * MINUTE, (m + 1) * MINUTE, (m + 2) * MINUTE, from, from + MINUTE);
  }

  /** The calls, followed by `n` times `c`. */
  ghost function Repeated(calls: seq<Call>, c: Call, n: nat): seq<Call> {
    if n == 0 then calls else Repeated(calls, c, n - 1) + [c]
  }

  /** The call can come next. */
  ghost predicate Next(calls: seq<Call>, c: Call) {
    Monotone(calls) && forall i :: 0 <= i < |calls| ==> calls[i].now <= c.now
  }

  lemma OneMorePasses(limits: Limits, calls: seq<Call>, c: Call, key: Key, from: int, to: int)
    requires Next(calls, c) && c.fate.Answers? && from <= c.now < to
    requires key == KeyAt(c.tenant, c.now) && Hits(calls, key) < limits(c.tenant)
    ensures Next(calls + [c], c)
    ensures forall k :: Hits(calls + [c], k) == Hits(calls, k) + if k == key then 1 else 0
    ensures Passed(limits, calls + [c], c.tenant, from, to) == Passed(limits, calls, c.tenant, from, to) + 1
  {
    assert (calls + [c])[..|calls|] == calls;
    PassesIff(limits, calls + [c], |calls|);
  }

  /** Up to the limit, repeated calls in a fresh minute all pass. */
  lemma {:induction false} RepeatedPass(limits: Limits, calls: seq<Call>, c: Call, key: Key, n: nat, from: int, to: int)
    requires Next(calls, c) && c.fate.Answers? && from <= c.now < to
    requires key == KeyAt(c.tenant, c.now) && Hits(calls, key) == 0 && n <= limits(c.tenant)
    ensures Next(Repeated(calls, c, n), c)
    ensures forall k :: Hits(Repeated(calls, c, n), k) == Hits(calls, k) + if k == key then n else 0
    ensures Passed(limits, Repeated(calls, c, n), c.tenant, from, to) == Passed(limits, calls, c.tenant, from, to) + n
  {
    if n > 0 {
      RepeatedPass(limits, calls, c, key, n - 1, from, to);
      OneMorePasses(limits, Repeated(calls, c, n - 1), c, key, from, to);
    }
  }

  /** Requests that pass in the sixty seconds from `from` on. */
  ghost function PassedInSixtySeconds(limits: Limits, calls: seq<Call>, tenant: Tenant, from: nat): nat {
    Passed(limits, calls, tenant, from, from + 60_000_000_000)
  }

  /** The last nanosecond of a minute and the first of the next can each let the whole limit through. */
  lemma BurstReachesBound(limits: Limits, tenant: Tenant) returns (calls: seq<Call>)
    requires limits(tenant) >= 0
    ensures Monotone(calls) && PassedInSixtySeconds(limits, calls, tenant, MINUTE - 1) == 2 * limits(tenant)
  {
    var n, from, to := limits(tenant), MINUTE - 1, MINUTE - 1 + MINUTE;
    var last, first := Call(tenant, MINUTE - 1, Answers), Call(tenant, MINUTE, Answers);
    var early := Repeated([], last, n);
    RepeatedPass(limits, [], last, Key(tenant, 0), n, from, to);
    RepeatedPass(limits, early, first, Key(tenant, 1), n, from, to);
    calls := Repeated(early, first, n);
  }

  /** At most `limit` requests in any sixty seconds: what a sliding window would guarantee. */
  ghost predicate SlidingBoundHolds(limits: Limits, tenant: Tenant) {
    forall calls, from ::
      Monotone(calls) ==> PassedInSixtySeconds(limits, calls, tenant, from) <= Max(0, limits(tenant))
  }

  /** The documented sliding window is only met by limits that let nothing through. */
  lemma SlidingBoundIff(limits: Limits, tenant: Tenant)
    ensures SlidingBoundHolds(limits, tenant) <==> limits(tenant) <= 0
  {
    if limits(tenant) <= 0 {
      forall calls, from | Monotone(calls)
        ensures PassedInSixtySeconds(limits, calls, tenant, from) <= Max(0, limits(tenant))
      {
        SixtySecondBound(limits, calls, tenant, from);
      }
    } else {
      var calls := BurstReachesBound(limits, tenant);
    }
  }

  /** Other tenants' calls do not change what passes for a tenant. */
  lemma OthersDoNotMatter(limits: Limits, calls: seq<Call>, calls': seq<Call>, i: nat, i': nat)
    requires Monotone(calls) && Monotone(calls') && i < |calls| && i' < |calls'| && calls[i] == calls'[i']
    requires Own(calls[..i], calls[i].tenant) == Own(calls'[..i'], calls[i].tenant)
    ensures Passes(limits, calls, i) <==> Passes(limits, calls', i')
  {
    var key := KeyAt(calls[i].tenant, calls[i].now);
    PassesIff(limits, calls, i);
    PassesIff(limits, calls', i');
    OwnHits(calls[..i], key);
    OwnHits(calls'[..i'], key);
  }

  /** The calls of one tenant, in order. */
  ghost function Own(calls: seq<Call>, tenant: Tenant): seq<Call> {
    if calls == [] then []
    else
      var last := calls[|calls| - 1];
      Own(calls[..|calls| - 1], tenant) + if last.tenant == tenant then [last] else []
  }

  lemma {:induction false} OwnHits(calls: seq<Call>, key: Key)
    ensures Hits(Own(calls, key.tenant), key) == Hits(calls, key)
  {
    if calls != [] {
      var front, last := calls[..|calls| - 1], calls[|calls| - 1];
      OwnHits(front, key);
      if last.tenant == key.tenant {
        assert Own(calls, key.tenant)[..|Own(calls, key.tenant)| - 1] == Own(front, key.tenant);
      } else {
        assert Own(calls, key.tenant) == Own(front, key.tenant);
      }
    }
  }
}
