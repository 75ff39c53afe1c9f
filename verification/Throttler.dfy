/**
 * The in-memory branch of the rate-limit storage: one counter per key, opened by
 * the first hit of a window and dropped once the window is over.
 * Times are milliseconds; the clock never goes back.
 */
module Throttler {
  import opened Prelude

  datatype Record = Record(totalHits: nat, expiresAt: int)

  type Storage = map<string, Record>

  /** The storage record returned to the guard; its two blocking fields are constant. */
  datatype Answer = Answer(totalHits: nat, timeToExpire: int, isBlocked: bool, timeToBlockExpire: int)

  /** The record that counts at time now: an expired one is as good as none. */
  function Live(storage: Storage, key: string, now: int): Option<Record>
  {
    if key in storage && storage[key].expiresAt >= now then Some(storage[key]) else None
  }

  function Bumped(storage: Storage, key: string, ttl: int, now: int): Record
  {
    match Live(storage, key, now)
    case None => Record(1, now + ttl)
    case Some(r) => Record(r.totalHits + 1, r.expiresAt)
  }

  function AnswerTo(storage: Storage, key: string, ttl: int, now: int): Answer
  {
    var r := Bumped(storage, key, ttl, now);
    Answer(r.totalHits, CeilDiv(r.expiresAt - now, 1000), false, 0)
  }

  /** What the sweep leaves behind. */
  function Swept(storage: Storage, now: int): Storage
  {
    map key | key in storage && storage[key].expiresAt >= now :: storage[key]
  }

  class RedisThrottlerStorage {
    var inMemoryStorage: Storage

    constructor ()
      ensures inMemoryStorage == map[]
    {
      inMemoryStorage := map[];
    }

    method IncrementMemory(key: string, ttl: int, now: int) returns (answer: Answer)
      modifies this
      ensures inMemoryStorage == old(inMemoryStorage)[key := Bumped(old(inMemoryStorage), key, ttl, now)]
      ensures answer == AnswerTo(old(inMemoryStorage), key, ttl, now)
    {
      var expiresAt := now + ttl;
      if key !in inMemoryStorage || inMemoryStorage[key].expiresAt < now {
        inMemoryStorage := inMemoryStorage[key := Record(1, expiresAt)];
        return Answer(1, CeilDiv(ttl, 1000), false, 0);
      }
      var record := inMemoryStorage[key];
      record := record.(totalHits := record.totalHits + 1);
      inMemoryStorage := inMemoryStorage[key := record];
      return Answer(record.totalHits, CeilDiv(record.expiresAt - now, 1000), false, 0);
    }

    method Get(key: string, now: int) returns (answer: Option<(nat, int)>)
      ensures answer == Peeked(inMemoryStorage, key, now)
    {
      if key !in inMemoryStorage || inMemoryStorage[key].expiresAt < now {
        return None;
      }
      var record := inMemoryStorage[key];
      return Some((record.totalHits, CeilDiv(record.expiresAt - now, 1000)));
    }

    method CleanupExpiredRecords(now: int) returns (cleaned: nat)
      modifies this
      ensures inMemoryStorage == Swept(old(inMemoryStorage), now)
      ensures cleaned == |old(inMemoryStorage)| - |inMemoryStorage|
    {
      cleaned := 0;
      var entries := inMemoryStorage;
      var pending := entries.Keys;
      while pending != {}
        invariant pending <= entries.Keys
        invariant inMemoryStorage == map key | key in entries
                  && (key in pending || entries[key].expiresAt >= now) :: entries[key]
        invariant cleaned == |entries| - |inMemoryStorage|
        decreases |pending|
      {
        var key :| key in pending;
        ghost var before := inMemoryStorage;
        if entries[key].expiresAt < now {
          assert key in inMemoryStorage;
          inMemoryStorage := inMemoryStorage - {key};
          assert inMemoryStorage.Keys == before.Keys - {key};
          assert |inMemoryStorage.Keys| == |before.Keys| - 1;
          cleaned := cleaned + 1;
        }
        pending := pending - {key};
      }
    }
  }

  function Peeked(storage: Storage, key: string, now: int): Option<(nat, int)>
  {
    match Live(storage, key, now)
    case None => None
    case Some(r) => Some((r.totalHits, CeilDiv(r.expiresAt - now, 1000)))
  }

  // ---------------------------------------------------------------- runs

  datatype Event =
    | Hit(key: string, ttl: int, at: int)
    | Peek(key: string, at: int)
    | Sweep(at: int)

  /** What a caller sees: the answers to hits and peeks, in order. A sweep answers nothing. */
  datatype Seen =
    | SeenHit(key: string, at: int, answer: Answer)
    | SeenPeek(key: string, at: int, peeked: Option<(nat, int)>)

  function After(storage: Storage, e: Event): Storage
  {
    match e
    case Hit(key, ttl, at) => storage[key := Bumped(storage, key, ttl, at)]
    case Peek(_, _) => storage
    case Sweep(at) => Swept(storage, at)
  }

  function Shown(storage: Storage, e: Event): seq<Seen>
  {
    match e
    case Hit(key, ttl, at) => [SeenHit(key, at, AnswerTo(storage, key, ttl, at))]
    case Peek(key, at) => [SeenPeek(key, at, Peeked(storage, key, at))]
    case Sweep(_) => []
  }

  function Log(storage: Storage, es: seq<Event>): seq<Seen>
    decreases |es|
  {
    if es == [] then [] else Shown(storage, es[0]) + Log(After(storage, es[0]), es[1..])
  }

  predicate Chronological(es: seq<Event>, from: int)
  {
    es == [] || (from <= es[0].at && Chronological(es[1..], es[0].at))
  }

  function WithoutSweeps(es: seq<Event>): seq<Event>
  {
    if es == [] then []
    else (if es[0].Sweep? then [] else [es[0]]) + WithoutSweeps(es[1..])
  }

  // ---------------------------------------------------------------- what an answer says

  /** The window that counts a hit: the one open at its time, or a new one that ends one ttl later. */
  lemma HitMeans(storage: Storage, key: string, ttl: int, now: int)
    ensures var r := After(storage, Hit(key, ttl, now))[key];
            && (key in storage && storage[key].expiresAt >= now ==>
                  r.totalHits == storage[key].totalHits + 1 && r.expiresAt == storage[key].expiresAt)
            && (key !in storage || storage[key].expiresAt < now ==> r.totalHits == 1 && r.expiresAt == now + ttl)
    ensures forall k :: k != key ==> (k in After(storage, Hit(key, ttl, now)) <==> k in storage)
    ensures forall k :: k != key && k in storage ==> After(storage, Hit(key, ttl, now))[k] == storage[k]
  {
  }

  /** n is the least whole number of seconds that is not less than so many milliseconds. */
  predicate LeastSeconds(n: int, milliseconds: int)
  {
    1000 * n >= milliseconds && 1000 * (n - 1) < milliseconds
  }

  /** An answer counts the window's hits and gives the least wait to the window's end; it never blocks. */
  lemma AnswerMeans(storage: Storage, key: string, ttl: int, now: int)
    ensures var r := After(storage, Hit(key, ttl, now))[key];
            var shown := Shown(storage, Hit(key, ttl, now));
            && |shown| == 1 && shown[0].SeenHit? && shown[0].key == key && shown[0].at == now
            && var a := shown[0].answer;
               && a.totalHits == r.totalHits && LeastSeconds(a.timeToExpire, r.expiresAt - now)
               && !a.isBlocked && a.timeToBlockExpire == 0
  {
  }

  lemma PeekMeans(storage: Storage, key: string, now: int)
    ensures var shown := Shown(storage, Peek(key, now));
            && After(storage, Peek(key, now)) == storage
            && |shown| == 1 && shown[0].SeenPeek? && shown[0].key == key && shown[0].at == now
            && var p := shown[0].peeked;
               && (p.Some? <==> key in storage && storage[key].expiresAt >= now)
               && (p.Some? ==>
                     p.value.0 == storage[key].totalHits && LeastSeconds(p.value.1, storage[key].expiresAt - now))
  {
  }

  /** A sweep leaves exactly the records of windows that are not over. */
  lemma SweepMeans(storage: Storage, now: int, key: string)
    ensures Shown(storage, Sweep(now)) == []
    ensures key in After(storage, Sweep(now)) <==> key in storage && storage[key].expiresAt >= now
    ensures key in After(storage, Sweep(now)) ==> After(storage, Sweep(now))[key] == storage[key]
  {
  }

  function AfterAll(es: seq<Event>): Storage
  {
    if es == [] then map[] else After(AfterAll(es[..|es| - 1]), es[|es| - 1])
  }

  /** Every window ends one ttl after a hit of the run that opened it. */
  lemma {:induction false} WindowsAreOpenedByHits(es: seq<Event>, key: string)
    requires key in AfterAll(es)
    ensures exists i :: 0 <= i < |es| && es[i].Hit? && es[i].key == key &&
              AfterAll(es)[key].expiresAt == es[i].at + es[i].ttl
  {
    var n := |es| - 1;
    var before := AfterAll(es[..n]);
    if es[n].Hit? && es[n].key == key && !(key in before && before[key].expiresAt >= es[n].at) {
      assert AfterAll(es)[key].expiresAt == es[n].at + es[n].ttl;
    } else {
      WindowsAreOpenedByHits(es[..n], key);
      var i :| 0 <= i < n && es[..n][i].Hit? && es[..n][i].key == key
               && before[key].expiresAt == es[..n][i].at + es[..n][i].ttl;
      assert es[i] == es[..n][i];
    }
  }

  // ---------------------------------------------------------------- the sweep is invisible

  /** Two storages no later call can tell apart. */
  ghost predicate Alike(a: Storage, b: Storage, now: int)
  {
    forall key :: Live(a, key, now) == Live(b, key, now)
  }

  lemma StillAlike(a: Storage, b: Storage, now: int, later: int)
    requires Alike(a, b, now) && now <= later
    ensures Alike(a, b, later)
  {
    forall key ensures Live(a, key, later) == Live(b, key, later) {
      assert Live(a, key, now) == Live(b, key, now);
    }
  }

  lemma AlikeStep(a: Storage, b: Storage, e: Event)
    requires Alike(a, b, e.at)
    ensures Alike(After(a, e), if e.Sweep? then b else After(b, e), e.at)
    ensures !e.Sweep? ==> Shown(a, e) == Shown(b, e)
  {
    var a', b' := After(a, e), if e.Sweep? then b else After(b, e);
    if !e.Sweep? {
      assert Live(a, e.key, e.at) == Live(b, e.key, e.at);
    }
    forall key ensures Live(a', key, e.at) == Live(b', key, e.at) {
      assert Live(a, key, e.at) == Live(b, key, e.at);
    }
  }

  lemma {:induction false} AlikeRuns(a: Storage, b: Storage, es: seq<Event>, now: int)
    requires Alike(a, b, now) && Chronological(es, now)
    ensures Log(a, es) == Log(b, WithoutSweeps(es))
    decreases |es|
  {
    if es == [] {
    } else {
      var e, rest := es[0], es[1..];
      StillAlike(a, b, now, e.at);
      AlikeStep(a, b, e);
      AlikeRuns(After(a, e), if e.Sweep? then b else After(b, e), rest, e.at);
      if e.Sweep? {
        assert WithoutSweeps(es) == WithoutSweeps(rest);
      } else {
        var kept := [e] + WithoutSweeps(rest);
        assert WithoutSweeps(es) == kept;
        assert kept[0] == e && kept[1..] == WithoutSweeps(rest);
      }
    }
  }

  /** Runs that differ only in where the cleanup ran show every caller the same answers. */
  lemma SweepsAreInvisible(storage: Storage, es: seq<Event>, fs: seq<Event>, now: int)
    requires Chronological(es, now) && Chronological(fs, now)
    requires WithoutSweeps(es) == WithoutSweeps(fs)
    ensures Log(storage, es) == Log(storage, fs)
  {
    AlikeRuns(storage, storage, es, now);
    AlikeRuns(storage, storage, fs, now);
  }

  // ---------------------------------------------------------------- the sliding-interval bound

  /** A hit the guard lets through: its count has not passed the limit. */
  predicate Allowed(s: Seen, key: string, limit: nat, lo: int, hi: int)
  {
    s.SeenHit? && s.key == key && lo <= s.at <= hi && s.answer.totalHits <= limit
  }

  function CountAllowed(log: seq<Seen>, key: string, limit: nat, lo: int, hi: int): nat
  {
    if log == [] then 0
    else (if Allowed(log[0], key, limit, lo, hi) then 1 else 0) + CountAllowed(log[1..], key, limit, lo, hi)
  }

  lemma {:induction false} CountAllowedAppend(a: seq<Seen>, b: seq<Seen>, key: string, limit: nat, lo: int, hi: int)
    ensures CountAllowed(a + b, key, limit, lo, hi) == CountAllowed(a, key, limit, lo, hi)
            + CountAllowed(b, key, limit, lo, hi)
  {
    if a == [] {
      assert a + b == b;
    } else {
      CountAllowedAppend(a[1..], b, key, limit, lo, hi);
      assert (a + b)[0] == a[0] && (a + b)[1..] == a[1..] + b;
    }
  }

  predicate FixedTtl(es: seq<Event>, key: string, ttl: int)
  {
    forall e <- es :: e.Hit? && e.key == key ==> e.ttl == ttl
  }

  function Monus(a: int, b: int): nat { if a <= b then 0 else a - b }

  /** How many more hits on key the span [lo, lo + ttl] can still let through. */
  function Headroom(storage: Storage, key: string, ttl: int, limit: nat, lo: int, now: int): nat
  {
    if now > lo + ttl || limit == 0 then 0
    else if key !in storage || storage[key].expiresAt < lo then 2 * limit - 1
    else if storage[key].expiresAt < lo + ttl then Monus(limit, storage[key].totalHits) + limit
    else Monus(limit, storage[key].totalHits)
  }

  predicate Counting(storage: Storage, key: string)
  {
    key in storage ==> storage[key].totalHits >= 1
  }

  /** A hit or peek takes from the headroom what it adds to the count. */
  lemma HeadroomPays(storage: Storage, e: Event, key: string, ttl: int, limit: nat, lo: int, now: int)
    requires Counting(storage, key) && now <= e.at && ttl >= 0 && !e.Sweep? && (e.Hit? && e.key == key ==> e.ttl == ttl)
    ensures Counting(After(storage, e), key)
    ensures CountAllowed(Shown(storage, e), key, limit, lo, lo + ttl)
            + Headroom(After(storage, e), key, ttl, limit, lo, e.at)
         <= Headroom(storage, key, ttl, limit, lo, now)
  {
  }

  lemma {:induction false} HeadroomBounds(storage: Storage, es: seq<Event>, key: string, ttl: int, limit: nat,
                                          lo: int, now: int)
    requires Counting(storage, key) && Chronological(es, now) && FixedTtl(es, key, ttl) && WithoutSweeps(es) == es
             && ttl >= 0
    ensures CountAllowed(Log(storage, es), key, limit, lo, lo + ttl) <= Headroom(storage, key, ttl, limit, lo, now)
    decreases |es|
  {
    if es == [] {
    } else {
      var e, rest := es[0], es[1..];
      var next := After(storage, e);
      SweepFreeTail(es);
      assert e in es;
      HeadroomPays(storage, e, key, ttl, limit, lo, now);
      assert FixedTtl(rest, key, ttl);
      HeadroomBounds(next, rest, key, ttl, limit, lo, e.at);
      CountAllowedAppend(Shown(storage, e), Log(next, rest), key, limit, lo, lo + ttl);
    }
  }

  lemma SweepFreeTail(es: seq<Event>)
    requires es != [] && WithoutSweeps(es) == es
    ensures !es[0].Sweep? && WithoutSweeps(es[1..]) == es[1..]
  {
    WithoutSweepsShrinks(es[1..]);
  }

  lemma {:induction false} WithoutSweepsShrinks(es: seq<Event>)
    ensures |WithoutSweeps(es)| <= |es|
    ensures forall e <- WithoutSweeps(es) :: e in es && !e.Sweep?
    ensures WithoutSweeps(WithoutSweeps(es)) == WithoutSweeps(es)
  {
    if es != [] {
      WithoutSweepsShrinks(es[1..]);
      var kept := WithoutSweeps(es[1..]);
      assert [] + kept == kept;
      assert ([es[0]] + kept)[1..] == kept;
    }
  }

  lemma {:induction false} StillChronological(es: seq<Event>, now: int, start: int)
    requires Chronological(es, now) && start <= now
    ensures Chronological(WithoutSweeps(es), start)
  {
    if es != [] {
      StillChronological(es[1..], es[0].at, if es[0].Sweep? then start else es[0].at);
      var kept := WithoutSweeps(es[1..]);
      assert [] + kept == kept;
      assert ([es[0]] + kept)[1..] == kept;
    }
  }

  /**
   * From an empty storage, with one ttl for the key and sweeps anywhere, a closed span of
   * length ttl never lets more than 2 * limit - 1 hits through.
   */
  lemma SlidingBound(es: seq<Event>, key: string, ttl: nat, limit: nat, lo: int, start: int)
    requires Chronological(es, start) && FixedTtl(es, key, ttl)
    ensures CountAllowed(Log(map[], es), key, limit, lo, lo + ttl) <= Monus(2 * limit, 1)
  {
    var kept := WithoutSweeps(es);
    AlikeRuns(map[], map[], es, start);
    StillChronological(es, start, start);
    WithoutSweepsShrinks(es);
    HeadroomBounds(map[], kept, key, ttl, limit, lo, start);
  }

  // ---------------------------------------------------------------- the bound is reached

  function Burst(key: string, ttl: int, at: int, n: nat): seq<Event>
  {
    if n == 0 then [] else [Hit(key, ttl, at)] + Burst(key, ttl, at, n - 1)
  }

  lemma BurstHead(key: string, ttl: int, at: int, n: nat, tail: seq<Event>)
    requires n > 0
    ensures var es := Burst(key, ttl, at, n) + tail;
            es[0] == Hit(key, ttl, at) && es[1..] == Burst(key, ttl, at, n - 1) + tail
  {
  }

  lemma {:induction false} BurstChronological(key: string, ttl: int, at: int, n: nat, tail: seq<Event>, from: int)
    requires from <= at && Chronological(tail, at)
    ensures Chronological(Burst(key, ttl, at, n) + tail, from)
  {
    if n == 0 {
      assert Burst(key, ttl, at, n) + tail == tail;
    } else {
      BurstChronological(key, ttl, at, n - 1, tail, at);
      BurstHead(key, ttl, at, n, tail);
    }
  }

  lemma {:induction false} BurstFixedTtl(key: string, ttl: int, at: int, n: nat)
    ensures FixedTtl(Burst(key, ttl, at, n), key, ttl)
  {
    if n > 0 { BurstFixedTtl(key, ttl, at, n - 1); }
  }

  lemma FixedTtlAppend(a: seq<Event>, b: seq<Event>, key: string, ttl: int)
    requires FixedTtl(a, key, ttl) && FixedTtl(b, key, ttl)
    ensures FixedTtl(a + b, key, ttl)
  {
  }

  /** n further hits inside a window with room for them are all let through. */
  lemma {:induction false} BurstAllowed(storage: Storage, key: string, ttl: int, at: int, n: nat, tail: seq<Event>,
                                        limit: nat, lo: int, hi: int)
    requires key in storage && storage[key].expiresAt >= at && storage[key].totalHits + n <= limit
    requires lo <= at <= hi
    ensures CountAllowed(Log(storage, Burst(key, ttl, at, n) + tail), key, limit, lo, hi)
         == n + CountAllowed(Log(storage[key := Record(storage[key].totalHits + n, storage[key].expiresAt)], tail),
                             key, limit, lo, hi)
  {
    var es := Burst(key, ttl, at, n) + tail;
    if n == 0 {
      assert es == tail;
      assert storage[key := Record(storage[key].totalHits + n, storage[key].expiresAt)] == storage;
    } else {
      var e := Hit(key, ttl, at);
      BurstHead(key, ttl, at, n, tail);
      var next := After(storage, e);
      BurstAllowed(next, key, ttl, at, n - 1, tail, limit, lo, hi);
      CountAllowedAppend(Shown(storage, e), Log(next, es[1..]), key, limit, lo, hi);
      assert Shown(storage, e)[1..] == [];
      assert next[key := Record(next[key].totalHits + (n - 1), next[key].expiresAt)]
          == storage[key := Record(storage[key].totalHits + n, storage[key].expiresAt)];
    }
  }

  /** A hit after the window is over opens a new one; n more hits at the same time fill it. */
  lemma OpenAndFill(storage: Storage, key: string, ttl: nat, at: int, n: nat, limit: nat, lo: int, hi: int)
    requires key in storage ==> storage[key].expiresAt < at
    requires lo <= at <= hi && n + 1 == limit
    ensures CountAllowed(Log(storage, [Hit(key, ttl, at)] + Burst(key, ttl, at, n)), key, limit, lo, hi) == limit
  {
    var e, last := Hit(key, ttl, at), Burst(key, ttl, at, n);
    var next := After(storage, e);
    assert next[key] == Record(1, at + ttl);
    assert ([e] + last)[1..] == last && last + [] == last;
    CountAllowedAppend(Shown(storage, e), Log(next, last), key, limit, lo, hi);
    assert Shown(storage, e)[1..] == [];
    BurstAllowed(next, key, ttl, at, n, [], limit, lo, hi);
    assert Log(next[key := Record(limit, at + ttl)], []) == [];
  }

  /** The run that reaches the bound: one hit, limit - 1 at the window's last instant, limit right after. */
  function SharpRun(key: string, ttl: nat, limit: nat): seq<Event>
    requires limit >= 1
  {
    [Hit(key, ttl, 0)]
    + (Burst(key, ttl, ttl, limit - 1) + ([Hit(key, ttl, ttl + 1)] + Burst(key, ttl, ttl + 1, limit - 1)))
  }

  lemma SharpRunIsChronological(key: string, ttl: nat, limit: nat)
    requires limit >= 1
    ensures Chronological(SharpRun(key, ttl, limit), 0)
  {
    var last := Burst(key, ttl, ttl + 1, limit - 1);
    assert last + [] == last;
    BurstChronological(key, ttl, ttl + 1, limit - 1, [], ttl + 1);
    var tail := [Hit(key, ttl, ttl + 1)] + last;
    assert tail[1..] == last;
    BurstChronological(key, ttl, ttl, limit - 1, tail, 0);
    assert SharpRun(key, ttl, limit)[1..] == Burst(key, ttl, ttl, limit - 1) + tail;
  }

  lemma SharpRunHasFixedTtl(key: string, ttl: nat, limit: nat)
    requires limit >= 1
    ensures FixedTtl(SharpRun(key, ttl, limit), key, ttl)
  {
    var last, middle := Burst(key, ttl, ttl + 1, limit - 1), Burst(key, ttl, ttl, limit - 1);
    BurstFixedTtl(key, ttl, ttl + 1, limit - 1);
    BurstFixedTtl(key, ttl, ttl, limit - 1);
    FixedTtlAppend([Hit(key, ttl, ttl + 1)], last, key, ttl);
    FixedTtlAppend(middle, [Hit(key, ttl, ttl + 1)] + last, key, ttl);
    FixedTtlAppend([Hit(key, ttl, 0)], middle + ([Hit(key, ttl, ttl + 1)] + last), key, ttl);
  }

  /** For every positive ttl and limit some run reaches the bound, so no smaller one holds. */
  lemma SlidingBoundIsSharp(key: string, ttl: nat, limit: nat)
    requires ttl >= 1 && limit >= 1
    ensures Chronological(SharpRun(key, ttl, limit), 0) && FixedTtl(SharpRun(key, ttl, limit), key, ttl)
    ensures CountAllowed(Log(map[], SharpRun(key, ttl, limit)), key, limit, 1, 1 + ttl) == 2 * limit - 1
  {
    SharpRunIsChronological(key, ttl, limit);
    SharpRunHasFixedTtl(key, ttl, limit);
    var opener := Hit(key, ttl, 0);
    var tail := [Hit(key, ttl, ttl + 1)] + Burst(key, ttl, ttl + 1, limit - 1);
    var middle := Burst(key, ttl, ttl, limit - 1) + tail;
    assert SharpRun(key, ttl, limit)[1..] == middle;
    var s1: Storage := After(map[], opener);
    assert s1 == map[key := Record(1, ttl)];
    CountAllowedAppend(Shown(map[], opener), Log(s1, middle), key, limit, 1, 1 + ttl);
    assert Shown(map[], opener)[1..] == [];
    BurstAllowed(s1, key, ttl, ttl, limit - 1, tail, limit, 1, 1 + ttl);
    OpenAndFill(s1[key := Record(limit, ttl)], key, ttl, ttl + 1, limit - 1, limit, 1, 1 + ttl);
  }
}
