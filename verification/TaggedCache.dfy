/**
 * The tagged cache: values and tag indexes share one Redis keyspace, each key with its
 * own expiry. Times are milliseconds, time-to-live values are seconds.
 */
module TaggedCache {
  import opened Prelude

  const DEFAULT_TTL := 300
  const TAG_SLACK := 60
  const KEY_PREFIX := "mash:cache:"
  const TAG_PREFIX := "mash:tag:"

  // ---------------------------------------------------------------- the keyspace

  datatype Cell<V> = Value(v: V) | Keys(keys: seq<string>)

  datatype Stored<V> = Stored(cell: Cell<V>, expiresAt: int)

  type Store<V> = map<string, Stored<V>>

  predicate Live<V>(store: Store<V>, key: string, now: int)
  {
    key in store && now < store[key].expiresAt
  }

  function RedisGet<V>(store: Store<V>, key: string, now: int): Option<Cell<V>>
  {
    if Live(store, key, now) then Some(store[key].cell) else None
  }

  /** SETEX: refused for a time to live that is not positive. */
  function RedisSet<V>(store: Store<V>, key: string, cell: Cell<V>, ttl: int, now: int): Store<V>
  {
    if ttl <= 0 then store else store[key := Stored(cell, now + 1000 * ttl)]
  }

  function RedisDelete<V>(store: Store<V>, key: string): Store<V>
  {
    store - {key}
  }

  function BuildKey(key: string, ns: Option<string>): string
  {
    match ns
    case Some(n) => if n != "" then KEY_PREFIX + n + ":" + key else KEY_PREFIX + key
    case None => KEY_PREFIX + key
  }

  function BuildTagKey(tag: string): string
  {
    TAG_PREFIX + tag
  }

  predicate IsCacheKey(k: string)
  {
    KEY_PREFIX <= k
  }

  predicate IsTagKey(k: string)
  {
    TAG_PREFIX <= k
  }

  lemma KeysAreApart(k: string)
    ensures !(IsCacheKey(k) && IsTagKey(k))
  {
    assert IsCacheKey(k) ==> |k| > 5 && k[5] == KEY_PREFIX[5] == 'c';
    assert IsTagKey(k) ==> |k| > 5 && k[5] == TAG_PREFIX[5] == 't';
  }

  lemma BuildKeyIsCacheKey(key: string, ns: Option<string>)
    ensures IsCacheKey(BuildKey(key, ns))
  {
  }

  lemma KeysAreInjective(a: string, b: string)
    ensures BuildKey(a, None) == BuildKey(b, None) ==> a == b
    ensures BuildTagKey(a) == BuildTagKey(b) ==> a == b
  {
    assert a == BuildKey(a, None)[|KEY_PREFIX|..] && b == BuildKey(b, None)[|KEY_PREFIX|..];
    assert a == BuildTagKey(a)[|TAG_PREFIX|..] && b == BuildTagKey(b)[|TAG_PREFIX|..];
  }

  /** A key in a namespace shares its full key with exactly the plain key that spells the namespace out. */
  lemma NamespaceSpelledOut(a: string, b: string, n: string)
    requires n != ""
    ensures BuildKey(a, None) == BuildKey(b, Some(n)) <==> a == n + ":" + b
  {
    assert BuildKey(a, None)[|KEY_PREFIX|..] == a;
    assert BuildKey(b, Some(n)) == KEY_PREFIX + (n + ":" + b);
    assert BuildKey(b, Some(n))[|KEY_PREFIX|..] == n + ":" + b;
  }

  /** The longer namespace n goes on where m ends, and the key under m spells the rest of it out. */
  predicate SpellsRest(a: string, m: string, b: string, n: string)
  {
    |m| < |n| && m + ":" + n[|m| + 1..] == n && a == n[|m| + 1..] + ":" + b
  }

  lemma SameTail(a: string, m: string, b: string, n: string)
    requires |m| <= |n|
    ensures m + ":" + a == n + ":" + b <==> (m == n && a == b) || SpellsRest(a, m, b, n)
  {
    var s, t := m + ":" + a, n + ":" + b;
    if s == t {
      assert m == s[..|m|] == t[..|m|] == n[..|m|];
      assert a == s[|m| + 1..] == t[|m| + 1..];
      if |m| < |n| {
        assert n[|m|] == t[|m|] == s[|m|] == ':';
        assert t[|m| + 1..] == n[|m| + 1..] + ":" + b;
        assert m + ":" + n[|m| + 1..] == n;
      }
    }
    if SpellsRest(a, m, b, n) {
      var rest := n[|m| + 1..];
      assert s == m + ":" + (rest + ":" + b) == (m + ":" + rest) + ":" + b;
    }
  }

  /**
   * Two names in namespaces share a full key exactly when they are the same or one spells out the rest
   * of the other's namespace; so never when no namespace holds a colon.
   */
  lemma NamespacesShareExactly(a: string, m: string, b: string, n: string)
    requires m != "" && n != ""
    ensures BuildKey(a, Some(m)) == BuildKey(b, Some(n)) <==>
              (m == n && a == b) || SpellsRest(a, m, b, n) || SpellsRest(b, n, a, m)
    ensures ':' !in m && ':' !in n && BuildKey(a, Some(m)) == BuildKey(b, Some(n)) ==> m == n && a == b
  {
    NamespaceSpelledOut(m + ":" + a, b, n);
    NamespaceSpelledOut(m + ":" + a, a, m);
    if |m| <= |n| { SameTail(a, m, b, n); } else { SameTail(b, n, a, m); }
    if SpellsRest(a, m, b, n) { assert n[|m|] == (m + ":" + n[|m| + 1..])[|m|] == ':'; }
    if SpellsRest(b, n, a, m) { assert m[|n|] == (n + ":" + m[|n| + 1..])[|n|] == ':'; }
  }

  // ---------------------------------------------------------------- what each operation does to the keyspace

  /** The keys an index lists; an index that is gone lists none. */
  function Tagged<V>(store: Store<V>, tag: string, now: int): seq<string>
  {
    match RedisGet(store, BuildTagKey(tag), now)
    case Some(Keys(keys)) => keys
    case _ => []
  }

  function WithKey(keys: seq<string>, key: string): (r: seq<string>)
    ensures key in r && forall k :: k in keys ==> k in r
  {
    if key in keys then keys else keys + [key]
  }

  /** One round of associateTags. */
  function AssociatedOnce<V>(store: Store<V>, key: string, tag: string, ttl: int, now: int): Store<V>
  {
    RedisSet(store, BuildTagKey(tag), Keys(WithKey(Tagged(store, tag, now), key)), ttl + TAG_SLACK, now)
  }

  function Associated<V>(store: Store<V>, key: string, tags: seq<string>, ttl: int, now: int): Store<V>
    decreases |tags|
  {
    if tags == [] then store else Associated(AssociatedOnce(store, key, tags[0], ttl, now), key, tags[1..], ttl, now)
  }

  function EffectiveTtl(ttl: Option<int>): int
  {
    if ttl.None? || ttl.value == 0 then DEFAULT_TTL else ttl.value
  }

  function AfterSet<V>(store: Store<V>, key: string, v: V, ttl: Option<int>, tags: seq<string>, now: int): Store<V>
  {
    var t := EffectiveTtl(ttl);
    if t <= 0 then store
    else Associated(RedisSet(store, BuildKey(key, None), Value(v), t, now), BuildKey(key, None), tags, t, now)
  }

  function Looked<V>(store: Store<V>, fullKey: string, now: int): Option<V>
  {
    match RedisGet(store, fullKey, now)
    case Some(Value(v)) => Some(v)
    case _ => None
  }

  function DeletedAll<V>(store: Store<V>, keys: seq<string>): Store<V>
  {
    store - (set k | k in keys)
  }

  /** One round of invalidateByTags. */
  function InvalidatedOnce<V>(store: Store<V>, tag: string, now: int): Store<V>
  {
    var keys := Tagged(store, tag, now);
    if keys == [] then store else RedisDelete(DeletedAll(store, keys), BuildTagKey(tag))
  }

  function Invalidated<V>(store: Store<V>, tags: seq<string>, now: int): Store<V>
    decreases |tags|
  {
    if tags == [] then store else Invalidated(InvalidatedOnce(store, tags[0], now), tags[1..], now)
  }

  function InvalidatedCount<V>(store: Store<V>, tags: seq<string>, now: int): nat
    decreases |tags|
  {
    if tags == [] then 0
    else |Tagged(store, tags[0], now)| + InvalidatedCount(InvalidatedOnce(store, tags[0], now), tags[1..], now)
  }

  function Cleared<V>(store: Store<V>): Store<V>
  {
    map k | k in store && !IsCacheKey(k) && !IsTagKey(k) :: store[k]
  }

  lemma DeletedOneMore<V>(store: Store<V>, keys: seq<string>, j: nat)
    requires j < |keys|
    ensures RedisDelete(DeletedAll(store, keys[..j]), keys[j]) == DeletedAll(store, keys[..j + 1])
  {
  }

  // ---------------------------------------------------------------- the service object

  /** The share of hits in percent, 0 before the first read. */
  function RateOf(hits: nat, operations: nat): (r: real)
    ensures r * operations as real == if operations == 0 then 0.0 else 100.0 * hits as real
    ensures operations == 0 ==> r == 0.0
  {
    if operations > 0 then hits as real / operations as real * 100.0 else 0.0
  }

  class CacheService<V> {
    var store: Store<V>
    var hits: nat
    var misses: nat
    var operations: nat
    var hitRate: real
    var available: bool

    ghost predicate Valid()
      reads this
    {
      operations == hits + misses && hitRate == RateOf(hits, operations)
    }

    constructor (available: bool)
      ensures Valid() && store == map[] && this.available == available
    {
      store := map[];
      hits, misses, operations, hitRate := 0, 0, 0, 0.0;
      this.available := available;
    }

    method UpdateStats(isHit: bool)
      requires Valid()
      modifies this`hits, this`misses, this`operations, this`hitRate
      ensures Valid() && operations == old(operations) + 1
      ensures hits == old(hits) + if isHit then 1 else 0
    {
      operations := operations + 1;
      if isHit {
        hits := hits + 1;
      } else {
        misses := misses + 1;
      }
      hitRate := RateOf(hits, operations);
    }

    method Get(key: string, ns: Option<string>, now: int) returns (value: Option<V>)
      requires Valid()
      modifies this`hits, this`misses, this`operations, this`hitRate
      ensures Valid()
      ensures value == if available then Looked(store, BuildKey(key, ns), now) else None
      ensures operations == old(operations) + if available then 1 else 0
      ensures hits == old(hits) + if value.Some? then 1 else 0
    {
      if !available {
        return None;
      }
      value := Looked(store, BuildKey(key, ns), now);
      UpdateStats(value.Some?);
    }

    method AssociateTags(key: string, tags: seq<string>, ttl: int, now: int)
      requires Valid()
      modifies this`store
      ensures Valid() && store == Associated(old(store), key, tags, ttl, now)
    {
      var i := 0;
      while i < |tags|
        invariant 0 <= i <= |tags|
        invariant Associated(store, key, tags[i..], ttl, now) == Associated(old(store), key, tags, ttl, now)
      {
        var tagKey := BuildTagKey(tags[i]);
        var taggedKeys := Tagged(store, tags[i], now);
        if key !in taggedKeys {
          taggedKeys := taggedKeys + [key];
        }
        assert tags[i..][0] == tags[i] && tags[i..][1..] == tags[i + 1..];
        store := RedisSet(store, tagKey, Keys(taggedKeys), ttl + TAG_SLACK, now);
        i := i + 1;
      }
    }

    method Set(key: string, v: V, ttl: Option<int>, tags: seq<string>, now: int) returns (success: bool)
      requires Valid()
      modifies this`store
      ensures Valid()
      ensures success == (available && EffectiveTtl(ttl) > 0)
      ensures store == if available then AfterSet(old(store), key, v, ttl, tags, now) else old(store)
    {
      if !available {
        return false;
      }
      var fullKey := BuildKey(key, None);
      var cacheTTL := EffectiveTtl(ttl);
      success := cacheTTL > 0;
      store := RedisSet(store, fullKey, Value(v), cacheTTL, now);
      if success && |tags| > 0 {
        AssociateTags(fullKey, tags, cacheTTL, now);
      }
    }

    method Delete(key: string, ns: Option<string>) returns (success: bool)
      requires Valid()
      modifies this`store
      ensures Valid() && success == available
      ensures store == if available then RedisDelete(old(store), BuildKey(key, ns)) else old(store)
    {
      if !available {
        return false;
      }
      store := RedisDelete(store, BuildKey(key, ns));
      return true;
    }

    method InvalidateByTags(tags: seq<string>, now: int) returns (totalDeleted: nat)
      requires Valid()
      modifies this`store
      ensures Valid()
      ensures store == if available then Invalidated(old(store), tags, now) else old(store)
      ensures totalDeleted == if available then InvalidatedCount(old(store), tags, now) else 0
    {
      if !available {
        return 0;
      }
      totalDeleted := 0;
      var i := 0;
      while i < |tags|
        invariant 0 <= i <= |tags|
        invariant Invalidated(store, tags[i..], now) == Invalidated(old(store), tags, now)
        invariant totalDeleted + InvalidatedCount(store, tags[i..], now) == InvalidatedCount(old(store), tags, now)
      {
        assert tags[i..][0] == tags[i] && tags[i..][1..] == tags[i + 1..];
        var keys := Tagged(store, tags[i], now);
        if |keys| > 0 {
          ghost var before, counted := store, totalDeleted;
          var j := 0;
          while j < |keys|
            invariant 0 <= j <= |keys|
            invariant store == DeletedAll(before, keys[..j])
            invariant totalDeleted == counted + j
          {
            DeletedOneMore(before, keys, j);
            store := RedisDelete(store, keys[j]);
            totalDeleted := totalDeleted + 1;
            j := j + 1;
          }
          assert keys[..|keys|] == keys;
          store := RedisDelete(store, BuildTagKey(tags[i]));
          assert store == InvalidatedOnce(before, tags[i], now);
        }
        i := i + 1;
      }
    }

    method ClearAll() returns (success: bool)
      requires Valid()
      modifies this`store
      ensures Valid() && success == available
      ensures store == if available then Cleared(old(store)) else old(store)
    {
      if !available {
        return false;
      }
      store := map k | k in store && !IsCacheKey(k) :: store[k];
      store := map k | k in store && !IsTagKey(k) :: store[k];
      return true;
    }

    method Wrap(key: string, fn: () -> V, ttl: Option<int>, tags: seq<string>, now: int) returns (result: V)
      requires Valid()
      modifies this
      ensures Valid() && available == old(available)
      ensures var cached := if available then Looked(old(store), BuildKey(key, None), now) else None;
              && result == (if cached.Some? then cached.value else fn())
              && store == if cached.Some? || !available then old(store)
                 else AfterSet(old(store), key, fn(), ttl, tags, now)
    {
      var cached := Get(key, None, now);
      if cached.Some? {
        return cached.value;
      }
      result := fn();
      var _ := Set(key, result, ttl, tags, now);
    }
  }

  // ---------------------------------------------------------------- backing: a live entry is listed by a live index

  /** While the entry under key k lives, so does the index of the tag, and it lists k. */
  predicate Backed<V>(store: Store<V>, k: string, tag: string, now: int)
  {
    Live(store, k, now) ==>
      && BuildTagKey(tag) in store
      && store[BuildTagKey(tag)].expiresAt >= store[k].expiresAt
      && store[BuildTagKey(tag)].cell.Keys?
      && k in store[BuildTagKey(tag)].cell.keys
  }

  /** Index cells list cache keys only, so deleting what one lists touches no index. */
  predicate Clean<V>(store: Store<V>)
  {
    forall k :: k in store && IsTagKey(k) && store[k].cell.Keys? ==> forall x <- store[k].cell.keys :: IsCacheKey(x)
  }

  lemma BackedLater<V>(store: Store<V>, k: string, tag: string, now: int, later: int)
    requires Backed(store, k, tag, now) && now <= later
    ensures Backed(store, k, tag, later)
  {
  }

  lemma ValueWriteIsClean<V>(store: Store<V>, key: string, v: V, ttl: int, now: int)
    requires Clean(store) && IsCacheKey(key)
    ensures Clean(RedisSet(store, key, Value(v), ttl, now))
  {
  }

  lemma AssociatedOnceIsClean<V>(store: Store<V>, key: string, t: string, ttl: int, now: int)
    requires Clean(store) && IsCacheKey(key)
    ensures Clean(AssociatedOnce(store, key, t, ttl, now))
  {
  }

  lemma AssociatedOnceKeeps<V>(store: Store<V>, key: string, t: string, ttl: int, now: int, k: string, tag: string)
    requires Clean(store) && IsCacheKey(key) && IsCacheKey(k) && ttl > 0
    requires Backed(store, k, tag, now)
    requires t == tag && Live(store, k, now) ==> store[k].expiresAt <= now + 1000 * (ttl + TAG_SLACK)
    ensures var next := AssociatedOnce(store, key, t, ttl, now);
            && Clean(next)
            && Backed(next, k, tag, now)
            && (k in store <==> k in next) && (k in store ==> next[k] == store[k])
  {
    KeysAreApart(k);
    KeysAreInjective(t, tag);
    AssociatedOnceIsClean(store, key, t, ttl, now);
  }

  lemma {:induction false} AssociatedKeeps<V>(store: Store<V>, key: string, tags: seq<string>, ttl: int, now: int,
                                              k: string, tag: string)
    requires Clean(store) && IsCacheKey(key) && IsCacheKey(k) && ttl > 0
    requires Backed(store, k, tag, now)
    requires tag in tags && Live(store, k, now) ==> store[k].expiresAt <= now + 1000 * (ttl + TAG_SLACK)
    ensures var next := Associated(store, key, tags, ttl, now);
            && Clean(next)
            && Backed(next, k, tag, now)
            && (k in store <==> k in next) && (k in store ==> next[k] == store[k])
    decreases |tags|
  {
    if tags != [] {
      AssociatedOnceKeeps(store, key, tags[0], ttl, now, k, tag);
      AssociatedKeeps(AssociatedOnce(store, key, tags[0], ttl, now), key, tags[1..], ttl, now, k, tag);
    }
  }

  /** The entry just written becomes backed for each of its tags. */
  lemma {:induction false} AssociatedBacks<V>(store: Store<V>, key: string, tags: seq<string>, ttl: int, now: int,
                                              tag: string)
    requires Clean(store) && IsCacheKey(key) && ttl > 0
    requires key in store && store[key].expiresAt == now + 1000 * ttl
    requires tag in tags
    ensures Backed(Associated(store, key, tags, ttl, now), key, tag, now)
    decreases |tags|
  {
    KeysAreApart(key);
    var next := AssociatedOnce(store, key, tags[0], ttl, now);
    assert IsTagKey(BuildTagKey(tags[0]));
    assert next[key] == store[key];
    AssociatedOnceIsClean(store, key, tags[0], ttl, now);
    if tags[0] == tag {
      assert Backed(next, key, tag, now);
      AssociatedKeeps(next, key, tags[1..], ttl, now, key, tag);
    } else {
      AssociatedBacks(next, key, tags[1..], ttl, now, tag);
    }
  }

  /** A set keeps every other entry backed if it does not cut the index of their tag short. */
  lemma SetKeepsOthers<V>(store: Store<V>, key: string, v: V, ttl: Option<int>, tags: seq<string>, now: int,
                          k: string, tag: string)
    requires Clean(store) && IsCacheKey(k) && k != BuildKey(key, None)
    requires Backed(store, k, tag, now)
    requires tag in tags && Live(store, k, now) ==> store[k].expiresAt <= now + 1000 * (EffectiveTtl(ttl) + TAG_SLACK)
    ensures var next := AfterSet(store, key, v, ttl, tags, now);
            && Clean(next)
            && Backed(next, k, tag, now)
            && (k in store <==> k in next) && (k in store ==> next[k] == store[k])
  {
    var t, full := EffectiveTtl(ttl), BuildKey(key, None);
    BuildKeyIsCacheKey(key, None);
    KeysAreApart(full);
    assert IsTagKey(BuildTagKey(tag));
    if t > 0 {
      var written := RedisSet(store, full, Value(v), t, now);
      ValueWriteIsClean(store, full, v, t, now);
      AssociatedKeeps(written, full, tags, t, now, k, tag);
    }
  }

  /** A successful set leaves the value readable, live for its ttl, and backed for each of its tags. */
  lemma SetBacks<V>(store: Store<V>, key: string, v: V, ttl: Option<int>, tags: seq<string>, now: int)
    requires Clean(store) && EffectiveTtl(ttl) > 0
    ensures var next := AfterSet(store, key, v, ttl, tags, now);
            && Clean(next)
            && BuildKey(key, None) in next
            && next[BuildKey(key, None)] == Stored(Value(v), now + 1000 * EffectiveTtl(ttl))
            && forall tag <- tags :: Backed(next, BuildKey(key, None), tag, now)
  {
    var t, full := EffectiveTtl(ttl), BuildKey(key, None);
    BuildKeyIsCacheKey(key, None);
    KeysAreApart(full);
    var written := RedisSet(store, full, Value(v), t, now);
    ValueWriteIsClean(store, full, v, t, now);
    AssociatedUntouched(written, full, tags, t, now, full);
    forall tag | tag in tags
      ensures Backed(AfterSet(store, key, v, ttl, tags, now), full, tag, now)
    {
      AssociatedBacks(written, full, tags, t, now, tag);
    }
  }

  lemma {:induction false} AssociatedUntouched<V>(store: Store<V>, key: string, tags: seq<string>, ttl: int, now: int,
                                                  k: string)
    requires Clean(store) && IsCacheKey(key) && IsCacheKey(k) && ttl > 0
    ensures var next := Associated(store, key, tags, ttl, now);
            && Clean(next)
            && (k in store <==> k in next) && (k in store ==> next[k] == store[k])
    decreases |tags|
  {
    if tags != [] {
      var next := AssociatedOnce(store, key, tags[0], ttl, now);
      KeysAreApart(k);
      assert IsTagKey(BuildTagKey(tags[0]));
      AssociatedOnceIsClean(store, key, tags[0], ttl, now);
      AssociatedUntouched(next, key, tags[1..], ttl, now, k);
    }
  }

  lemma InvalidatedOnceKeeps<V>(store: Store<V>, t: string, now: int, k: string, tag: string)
    requires Clean(store) && IsCacheKey(k) && Backed(store, k, tag, now)
    ensures var next := InvalidatedOnce(store, t, now);
            && Clean(next) && Backed(next, k, tag, now)
            && (k in next ==> k in store && next[k] == store[k])
            && (t == tag ==> !Live(next, k, now))
  {
    KeysAreApart(k);
    KeysAreInjective(t, tag);
    var keys := Tagged(store, t, now);
    assert IsTagKey(BuildTagKey(t)) && IsTagKey(BuildTagKey(tag));
    KeysAreApart(BuildTagKey(tag));
    assert forall x <- keys :: IsCacheKey(x);
    assert BuildTagKey(tag) !in keys;
    if t == tag && Live(store, k, now) {
      assert k in keys;
    }
  }

  /**
   * Invalidation is complete: an entry backed for one of the tags does not survive, an entry
   * backed for another tag either goes or stays backed.
   */
  lemma {:induction false} InvalidatedRemoves<V>(store: Store<V>, tags: seq<string>, now: int, k: string, tag: string)
    requires Clean(store) && IsCacheKey(k) && Backed(store, k, tag, now)
    ensures var next := Invalidated(store, tags, now);
            && Clean(next) && Backed(next, k, tag, now)
            && (k in next ==> k in store && next[k] == store[k])
            && (tag in tags ==> !Live(next, k, now))
    decreases |tags|
  {
    if tags != [] {
      InvalidatedOnceKeeps(store, tags[0], now, k, tag);
      var next := InvalidatedOnce(store, tags[0], now);
      InvalidatedRemoves(next, tags[1..], now, k, tag);
    }
  }

  /** Invalidation takes nothing else: an entry no index of these tags lists stays as it was. */
  lemma {:induction false} InvalidationSparesOthers<V>(store: Store<V>, tags: seq<string>, now: int, k: string)
    requires Clean(store) && IsCacheKey(k)
    requires forall tag <- tags :: k !in Tagged(store, tag, now)
    ensures k in Invalidated(store, tags, now) <==> k in store
    ensures k in store ==> Invalidated(store, tags, now)[k] == store[k]
    decreases |tags|
  {
    if tags != [] {
      KeysAreApart(k);
      assert IsTagKey(BuildTagKey(tags[0]));
      var next := InvalidatedOnce(store, tags[0], now);
      forall tag | tag in tags[1..]
        ensures k !in Tagged(next, tag, now)
      {
        assert Tagged(next, tag, now) == [] || Tagged(next, tag, now) == Tagged(store, tag, now);
      }
      InvalidationSparesOthers(next, tags[1..], now, k);
    }
  }

  // ---------------------------------------------------------------- runs

  datatype Event<V> =
    | SetEvent(key: string, v: V, ttl: Option<int>, tags: seq<string>, at: int)
    | DeleteEvent(key: string, ns: Option<string>, at: int)
    | InvalidateEvent(tags: seq<string>, at: int)
    | ClearEvent(at: int)

  function Step<V>(store: Store<V>, e: Event<V>): Store<V>
  {
    match e
    case SetEvent(key, v, ttl, tags, at) => AfterSet(store, key, v, ttl, tags, at)
    case DeleteEvent(key, ns, _) => RedisDelete(store, BuildKey(key, ns))
    case InvalidateEvent(tags, at) => Invalidated(store, tags, at)
    case ClearEvent(_) => Cleared(store)
  }

  /** The keyspace after a history, oldest event first. */
  function After<V>(history: seq<Event<V>>): Store<V>
  {
    if history == [] then map[] else Step(After(history[..|history| - 1]), history[|history| - 1])
  }

  predicate Chronological<V>(history: seq<Event<V>>, now: int)
  {
    history == [] ||
    (history[|history| - 1].at <= now && Chronological(history[..|history| - 1], history[|history| - 1].at))
  }

  /** A successful set of a full key. */
  predicate SetsKey<V>(e: Event<V>, k: string)
  {
    e.SetEvent? && BuildKey(e.key, None) == k && EffectiveTtl(e.ttl) > 0
  }

  /** The last successful set of a full key in a history. */
  function LastSet<V>(history: seq<Event<V>>, k: string): Option<Event<V>>
  {
    if history == [] then None
    else
      var e := history[|history| - 1];
      if SetsKey(e, k) then Some(e)
      else LastSet(history[..|history| - 1], k)
  }

  predicate Carries<V>(history: seq<Event<V>>, k: string, tag: string)
  {
    var s := LastSet(history, k);
    s.Some? && s.value.SetEvent? && tag in s.value.tags
  }

  /** Every set that uses the tag has a ttl of at least low seconds. */
  ghost predicate TtlsAtLeast<V>(history: seq<Event<V>>, tag: string, low: int)
  {
    forall e <- history :: e.SetEvent? && tag in e.tags && EffectiveTtl(e.ttl) > 0 ==> EffectiveTtl(e.ttl) >= low
  }

  ghost predicate TtlsAtMost<V>(history: seq<Event<V>>, tag: string, high: int)
  {
    forall e <- history :: e.SetEvent? && tag in e.tags && EffectiveTtl(e.ttl) > 0 ==> EffectiveTtl(e.ttl) <= high
  }

  /** What every step of a history keeps about the entries that carry a tag. */
  ghost predicate Kept<V>(history: seq<Event<V>>, store: Store<V>, tag: string, low: int, now: int)
  {
    && Clean(store)
    && forall k :: IsCacheKey(k) && Carries(history, k, tag) && Live(store, k, now) ==>
         Backed(store, k, tag, now) && store[k].expiresAt <= now + 1000 * (low + TAG_SLACK)
  }

  lemma ClearedKeeps<V>(store: Store<V>)
    requires Clean(store)
    ensures Clean(Cleared(store)) && forall k :: IsCacheKey(k) ==> k !in Cleared(store)
  {
  }

  lemma StepKeeps<V>(history: seq<Event<V>>, e: Event<V>, tag: string, low: int, before: int)
    requires Kept(history, After(history), tag, low, before) && before <= e.at
    requires TtlsAtLeast(history + [e], tag, low) && TtlsAtMost(history + [e], tag, low + TAG_SLACK)
    ensures Kept(history + [e], Step(After(history), e), tag, low, e.at)
  {
    var store, all := After(history), history + [e];
    var next := Step(store, e);
    assert all[|all| - 1] == e && all[..|all| - 1] == history;
    assert e in all;
    StepIsClean(store, e);
    forall k | IsCacheKey(k) && Carries(all, k, tag) && Live(next, k, e.at)
      ensures Backed(next, k, tag, e.at) && next[k].expiresAt <= e.at + 1000 * (low + TAG_SLACK)
    {
      if SetsKey(e, k) {
        SetBacks(store, e.key, e.v, e.ttl, e.tags, e.at);
      } else {
        assert Carries(history, k, tag);
        StepLeaves(store, e, k);
        BackedLater(store, k, tag, before, e.at);
        match e
        case SetEvent(key, v, ttl, tags, at) =>
          if EffectiveTtl(ttl) > 0 { SetKeepsOthers(store, key, v, ttl, tags, at, k, tag); }
        case DeleteEvent(key, ns, at) =>
          BuildKeyIsCacheKey(key, ns);
          KeysAreApart(BuildKey(key, ns));
          assert IsTagKey(BuildTagKey(tag));
        case InvalidateEvent(tags, at) => InvalidatedRemoves(store, tags, at, k, tag);
        case ClearEvent(at) => ClearedKeeps(store);
      }
    }
  }

  lemma StepIsClean<V>(store: Store<V>, e: Event<V>)
    requires Clean(store)
    ensures Clean(Step(store, e))
  {
    match e
    case SetEvent(key, v, ttl, tags, at) => if EffectiveTtl(ttl) > 0 { SetBacks(store, key, v, ttl, tags, at); }
    case DeleteEvent(key, ns, at) =>
    case InvalidateEvent(tags, at) => InvalidatedIsClean(store, tags, at);
    case ClearEvent(at) => ClearedKeeps(store);
  }

  lemma {:induction false} InvalidatedIsClean<V>(store: Store<V>, tags: seq<string>, now: int)
    requires Clean(store)
    ensures Clean(Invalidated(store, tags, now))
    ensures forall k :: k in Invalidated(store, tags, now) ==>
              k in store && Invalidated(store, tags, now)[k] == store[k]
    decreases |tags|
  {
    if tags != [] {
      InvalidatedIsClean(InvalidatedOnce(store, tags[0], now), tags[1..], now);
    }
  }

  /** A step that does not set the key leaves its entry as it was or takes it away. */
  lemma StepLeaves<V>(store: Store<V>, e: Event<V>, k: string)
    requires Clean(store) && IsCacheKey(k)
    requires !SetsKey(e, k)
    ensures k in Step(store, e) ==> k in store && Step(store, e)[k] == store[k]
  {
    match e
    case SetEvent(key, v, ttl, tags, at) =>
      var t, full := EffectiveTtl(ttl), BuildKey(key, None);
      if t > 0 {
        BuildKeyIsCacheKey(key, None);
        KeysAreApart(full);
        var written := RedisSet(store, full, Value(v), t, at);
        ValueWriteIsClean(store, full, v, t, at);
        AssociatedUntouched(written, full, tags, t, at, k);
      }
    case DeleteEvent(key, ns, at) =>
    case InvalidateEvent(tags, at) => InvalidatedIsClean(store, tags, at);
    case ClearEvent(at) =>
  }

  lemma {:induction false} HistoryKeeps<V>(history: seq<Event<V>>, tag: string, low: int, now: int)
    requires Chronological(history, now)
    requires TtlsAtLeast(history, tag, low) && TtlsAtMost(history, tag, low + 60)
    ensures Kept(history, After(history), tag, low, now)
    decreases |history|
  {
    if history != [] {
      var earlier, e := history[..|history| - 1], history[|history| - 1];
      assert earlier + [e] == history;
      var before := if earlier == [] then e.at else earlier[|earlier| - 1].at;
      HistoryKeeps(earlier, tag, low, before);
      StepKeeps(earlier, e, tag, low, before);
      var store := After(history);
      forall k | IsCacheKey(k) && Carries(history, k, tag) && Live(store, k, now)
        ensures Backed(store, k, tag, now) && store[k].expiresAt <= now + 1000 * (low + 60)
      {
      }
    }
  }

  /**
   * After any history in which the ttls used with a tag lie within the slack of each other, every
   * live entry that carries the tag is listed by the tag's live index.
   */
  lemma LiveEntriesAreListed<V>(history: seq<Event<V>>, tag: string, low: int, now: int, k: string)
    requires Chronological(history, now) && IsCacheKey(k)
    requires TtlsAtLeast(history, tag, low) && TtlsAtMost(history, tag, low + 60)
    requires Carries(history, k, tag) && Live(After(history), k, now)
    ensures Live(After(history), BuildTagKey(tag), now) && k in Tagged(After(history), tag, now)
  {
    HistoryKeeps(history, tag, low, now);
  }

  /** So invalidating the tag, alone or among others, leaves no live entry that carries it. */
  lemma InvalidationIsComplete<V>(history: seq<Event<V>>, tags: seq<string>, tag: string, low: int, now: int, k: string)
    requires Chronological(history, now) && IsCacheKey(k) && tag in tags
    requires TtlsAtLeast(history, tag, low) && TtlsAtMost(history, tag, low + 60)
    requires Carries(history, k, tag)
    ensures !Live(Invalidated(After(history), tags, now), k, now)
  {
    HistoryKeeps(history, tag, low, now);
    InvalidatedRemoves(After(history), tags, now, k, tag);
  }

  // ---------------------------------------------------------------- what a read answers

  /** A delete of the key, an invalidation of a tag whose live index lists it, or a clear. */
  predicate Takes<V>(store: Store<V>, e: Event<V>, k: string)
  {
    match e
    case SetEvent(_, _, _, _, _) => false
    case DeleteEvent(key, ns, _) => BuildKey(key, ns) == k
    case InvalidateEvent(tags, at) => exists tag <- tags :: k in Tagged(store, tag, at)
    case ClearEvent(_) => true
  }

  /** An entry goes exactly by such a step, and is changed only by a set of its key. */
  lemma StepTakesExactly<V>(store: Store<V>, e: Event<V>, k: string)
    requires Clean(store) && IsCacheKey(k) && k in store && !SetsKey(e, k)
    ensures k !in Step(store, e) <==> Takes(store, e, k)
    ensures k in Step(store, e) ==> Step(store, e)[k] == store[k]
  {
    StepLeaves(store, e, k);
    match e
    case SetEvent(key, v, ttl, tags, at) =>
      var t, full := EffectiveTtl(ttl), BuildKey(key, None);
      if t > 0 {
        BuildKeyIsCacheKey(key, None);
        ValueWriteIsClean(store, full, v, t, at);
        AssociatedUntouched(RedisSet(store, full, Value(v), t, at), full, tags, t, at, k);
      }
    case DeleteEvent(key, ns, at) =>
    case InvalidateEvent(tags, at) => InvalidatedExactly(store, tags, at, k);
    case ClearEvent(at) =>
  }

  /** No later event sets the key or takes its entry. */
  predicate LeftAlone<V>(before: seq<Event<V>>, later: seq<Event<V>>, k: string)
    decreases |later|
  {
    later == [] ||
      var n := |later| - 1;
      LeftAlone(before, later[..n], k) && !SetsKey(later[n], k) && !Takes(After(before + later[..n]), later[n], k)
  }

  lemma EntryStaysOnce<V>(history: seq<Event<V>>, e: Event<V>, k: string)
    requires IsCacheKey(k) && k in After(history) && !SetsKey(e, k) && !Takes(After(history), e, k)
    ensures k in After(history + [e]) && After(history + [e])[k] == After(history)[k]
  {
    HistoryIsClean(history);
    StepTakesExactly(After(history), e, k);
    assert (history + [e])[..|history|] == history;
  }

  lemma {:induction false} EntryStays<V>(before: seq<Event<V>>, later: seq<Event<V>>, k: string)
    requires IsCacheKey(k) && k in After(before) && LeftAlone(before, later, k)
    ensures k in After(before + later) && After(before + later)[k] == After(before)[k]
    decreases |later|
  {
    if later == [] {
      assert before + later == before;
    } else {
      var n := |later| - 1;
      EntryStays(before, later[..n], k);
      EntryStaysOnce(before + later[..n], later[n], k);
      assert before + later[..n] + [later[n]] == before + later;
    }
  }

  /** A set stores the value for its ttl, five minutes when none or 0 is given. */
  lemma SetStores<V>(before: seq<Event<V>>, key: string, v: V, ttl: Option<int>, tags: seq<string>, at: int,
                     seconds: int)
    requires seconds > 0
    requires if ttl.None? || ttl == Some(0) then seconds == 300 else ttl == Some(seconds)
    ensures var all := before + [SetEvent(key, v, ttl, tags, at)];
            && BuildKey(key, None) in After(all)
            && After(all)[BuildKey(key, None)] == Stored(Value(v), at + 1000 * seconds)
  {
    var all := before + [SetEvent(key, v, ttl, tags, at)];
    assert all[..|before|] == before;
    HistoryIsClean(before);
    SetBacks(After(before), key, v, ttl, tags, at);
  }

  /** A value set is what a read answers for exactly its ttl, unless a later step sets the key again or takes it. */
  lemma SetIsRead<V>(before: seq<Event<V>>, key: string, v: V, ttl: Option<int>, tags: seq<string>, at: int,
                     seconds: int, later: seq<Event<V>>, now: int)
    requires seconds > 0
    requires if ttl.None? || ttl == Some(0) then seconds == 300 else ttl == Some(seconds)
    requires LeftAlone(before + [SetEvent(key, v, ttl, tags, at)], later, BuildKey(key, None))
    ensures Looked(After(before + [SetEvent(key, v, ttl, tags, at)] + later), BuildKey(key, None), now)
         == if now < at + 1000 * seconds then Some(v) else None
  {
    SetStores(before, key, v, ttl, tags, at, seconds);
    BuildKeyIsCacheKey(key, None);
    EntryStays(before + [SetEvent(key, v, ttl, tags, at)], later, BuildKey(key, None));
  }

  /** A set with a ttl below 0 stores nothing. */
  lemma BadTtlStoresNothing<V>(store: Store<V>, key: string, v: V, ttl: int, tags: seq<string>, at: int)
    requires ttl < 0
    ensures Step(store, SetEvent(key, v, Some(ttl), tags, at)) == store
  {
  }

  /** Of what is not there a read answers nothing. */
  lemma NothingIsRead<V>(store: Store<V>, fullKey: string, now: int)
    requires fullKey !in store
    ensures Looked(store, fullKey, now).None?
  {
  }

  /** A delete takes that key, a clear every cache and tag key; nothing else goes. */
  lemma DeleteAndClearMean<V>(store: Store<V>, key: string, ns: Option<string>, at: int, k: string)
    ensures k in Step(store, DeleteEvent(key, ns, at)) <==> k in store && k != BuildKey(key, ns)
    ensures k in Step(store, DeleteEvent(key, ns, at)) ==> Step(store, DeleteEvent(key, ns, at))[k] == store[k]
    ensures k in Step(store, ClearEvent(at)) <==> k in store && !("mash:cache:" <= k) && !("mash:tag:" <= k)
    ensures k in Step(store, ClearEvent(at)) ==> Step(store, ClearEvent(at))[k] == store[k]
  {
  }

  /** The count of an invalidation is the number of keys listed under each tag when its turn comes. */
  lemma {:induction false} CountMeans<V>(store: Store<V>, tags: seq<string>, tag: string, now: int)
    ensures InvalidatedCount(store, [], now) == 0
    ensures InvalidatedCount(store, tags + [tag], now)
         == InvalidatedCount(store, tags, now) + |Tagged(Invalidated(store, tags, now), tag, now)|
    decreases |tags|
  {
    if tags == [] {
      assert tags + [tag] == [tag] && [tag][1..] == [];
    } else {
      CountMeans(InvalidatedOnce(store, tags[0], now), tags[1..], tag, now);
      assert (tags + [tag])[1..] == tags[1..] + [tag];
    }
  }

  /** A live index lists what it holds; one that is over or not there lists nothing. */
  lemma TaggedMeans<V>(store: Store<V>, tag: string, now: int)
    ensures var k := "mash:tag:" + tag;
            Tagged(store, tag, now)
            == if k in store && now < store[k].expiresAt && store[k].cell.Keys? then store[k].cell.keys else []
  {
  }

  /** The full keys, spelled out. */
  lemma FullKeysSpelled(key: string, ns: string, tag: string)
    ensures BuildKey(key, None) == "mash:cache:" + key && BuildKey(key, Some("")) == "mash:cache:" + key
    ensures ns != "" ==> BuildKey(key, Some(ns)) == "mash:cache:" + ns + ":" + key
    ensures BuildTagKey(tag) == "mash:tag:" + tag
  {
  }

  // ---------------------------------------------------------------- exactly when an entry is listed

  /** Since the last set of k, the index of the tag was live at each event and still is. */
  predicate Unlapsed<V>(history: seq<Event<V>>, k: string, tag: string, now: int)
  {
    && Live(After(history), BuildTagKey(tag), now)
    && (history == [] ||
        var earlier, e := history[..|history| - 1], history[|history| - 1];
        SetsKey(e, k) || Unlapsed(earlier, k, tag, e.at))
  }

  lemma {:induction false} AssociatedLists<V>(store: Store<V>, key: string, tags: seq<string>, ttl: int, now: int,
                                              k: string, tag: string)
    requires k != key && ttl > 0
    ensures k in Tagged(Associated(store, key, tags, ttl, now), tag, now) <==> k in Tagged(store, tag, now)
    decreases |tags|
  {
    if tags != [] {
      var next := AssociatedOnce(store, key, tags[0], ttl, now);
      KeysAreInjective(tags[0], tag);
      AssociatedLists(next, key, tags[1..], ttl, now, k, tag);
    }
  }

  lemma InvalidatedOnceLists<V>(store: Store<V>, t: string, now: int, k: string, tag: string)
    requires Clean(store) && IsCacheKey(k) && k in InvalidatedOnce(store, t, now)
    ensures k in Tagged(InvalidatedOnce(store, t, now), tag, now) <==> k in Tagged(store, tag, now)
  {
    KeysAreInjective(t, tag);
    KeysAreApart(BuildTagKey(tag));
    assert IsTagKey(BuildTagKey(t)) && IsTagKey(BuildTagKey(tag));
    assert BuildTagKey(tag) !in Tagged(store, t, now);
  }

  lemma {:induction false} InvalidatedLists<V>(store: Store<V>, tags: seq<string>, now: int, k: string, tag: string)
    requires Clean(store) && IsCacheKey(k) && k in Invalidated(store, tags, now)
    ensures k in Tagged(Invalidated(store, tags, now), tag, now) <==> k in Tagged(store, tag, now)
    decreases |tags|
  {
    if tags != [] {
      var next := InvalidatedOnce(store, tags[0], now);
      InvalidatedIsClean(next, tags[1..], now);
      InvalidatedOnceLists(store, tags[0], now, k, tag);
      InvalidatedLists(next, tags[1..], now, k, tag);
    }
  }

  /** A step that neither sets the key nor takes its entry away neither lists nor unlists it. */
  lemma StepLists<V>(store: Store<V>, e: Event<V>, k: string, tag: string)
    requires Clean(store) && IsCacheKey(k) && !SetsKey(e, k) && k in Step(store, e)
    ensures k in Tagged(Step(store, e), tag, e.at) <==> k in Tagged(store, tag, e.at)
  {
    KeysAreApart(BuildTagKey(tag));
    assert IsTagKey(BuildTagKey(tag));
    match e
    case SetEvent(key, v, ttl, tags, at) =>
      var t, full := EffectiveTtl(ttl), BuildKey(key, None);
      if t > 0 {
        BuildKeyIsCacheKey(key, None);
        AssociatedLists(RedisSet(store, full, Value(v), t, at), full, tags, t, at, k, tag);
      }
    case DeleteEvent(key, ns, at) => BuildKeyIsCacheKey(key, ns);
    case InvalidateEvent(tags, at) => InvalidatedLists(store, tags, at, k, tag);
    case ClearEvent(at) => ClearedKeeps(store);
  }

  lemma {:induction false} HistoryIsClean<V>(history: seq<Event<V>>)
    ensures Clean(After(history))
    decreases |history|
  {
    if history != [] {
      HistoryIsClean(history[..|history| - 1]);
      StepIsClean(After(history[..|history| - 1]), history[|history| - 1]);
    }
  }

  /**
   * An entry that was not taken away is listed under a tag of its last set exactly when the tag's
   * index has not lapsed since that set, whatever the ttls.
   */
  lemma {:induction false} ListedExactly<V>(history: seq<Event<V>>, tag: string, now: int, k: string)
    requires Chronological(history, now) && IsCacheKey(k) && Carries(history, k, tag) && k in After(history)
    ensures k in Tagged(After(history), tag, now) <==> Unlapsed(history, k, tag, now)
    decreases |history|
  {
    var earlier, e := history[..|history| - 1], history[|history| - 1];
    var store := After(earlier);
    HistoryIsClean(earlier);
    if SetsKey(e, k) {
      SetBacks(store, e.key, e.v, e.ttl, e.tags, e.at);
      assert Backed(After(history), k, tag, e.at);
    } else {
      StepLeaves(store, e, k);
      StepLists(store, e, k, tag);
      ListedExactly(earlier, tag, e.at, k);
    }
  }

  /** What invalidation takes away is exactly what a live index of one of its tags lists. */
  lemma {:induction false} InvalidatedExactly<V>(store: Store<V>, tags: seq<string>, now: int, k: string)
    requires Clean(store) && IsCacheKey(k) && k in store
    ensures k !in Invalidated(store, tags, now) <==> exists tag <- tags :: k in Tagged(store, tag, now)
    decreases |tags|
  {
    if tags != [] {
      var next := InvalidatedOnce(store, tags[0], now);
      KeysAreApart(k);
      assert IsTagKey(BuildTagKey(tags[0]));
      InvalidatedIsClean(next, tags[1..], now);
      if k in next {
        forall tag ensures k in Tagged(next, tag, now) <==> k in Tagged(store, tag, now) {
          InvalidatedOnceLists(store, tags[0], now, k, tag);
        }
        InvalidatedExactly(next, tags[1..], now, k);
      } else {
        assert tags[0] in tags && k in Tagged(store, tags[0], now);
      }
    }
  }

  /** So invalidating a tag misses a live entry that carries it exactly when the index has lapsed. */
  lemma InvalidationMissesExactly<V>(history: seq<Event<V>>, tag: string, now: int, k: string)
    requires Chronological(history, now) && IsCacheKey(k) && Carries(history, k, tag) && Live(After(history), k, now)
    ensures Live(Invalidated(After(history), [tag], now), k, now) <==> !Unlapsed(history, k, tag, now)
  {
    HistoryIsClean(history);
    ListedExactly(history, tag, now, k);
    InvalidatedExactly(After(history), [tag], now, k);
    assert [tag][0] == tag;
    InvalidatedIsClean(After(history), [tag], now);
  }

  lemma SingleTag<V>(store: Store<V>, key: string, tag: string, ttl: int, now: int)
    ensures Associated(store, key, [tag], ttl, now) == AssociatedOnce(store, key, tag, ttl, now)
    ensures Invalidated(store, [tag], now) == InvalidatedOnce(store, tag, now)
  {
  }

  /** Two sets under one tag at time 0, the second with the shorter ttl. */
  function TwoSets<V>(v: V, tag: string, low: int, high: int): seq<Event<V>>
  {
    [SetEvent("a", v, Some(high), [tag], 0), SetEvent("b", v, Some(low), [tag], 0)]
  }

  lemma SetUnderOneTag<V>(store: Store<V>, key: string, v: V, ttl: int, tag: string, now: int, k: string)
    requires ttl > 0 && IsCacheKey(k) && k != BuildKey(key, None)
    ensures var next := AfterSet(store, key, v, Some(ttl), [tag], now);
            && BuildKey(key, None) in next && next[BuildKey(key, None)].expiresAt == now + 1000 * ttl
            && BuildTagKey(tag) in next && next[BuildTagKey(tag)].expiresAt == now + 1000 * (ttl + 60)
            && (k in store ==> k in next && next[k] == store[k])
  {
    KeysAreApart(k);
    KeysAreApart(BuildKey(key, None));
    assert IsTagKey(BuildTagKey(tag)) && IsCacheKey(BuildKey(key, None));
    SingleTag(RedisSet(store, BuildKey(key, None), Value(v), ttl, now), BuildKey(key, None), tag, ttl, now);
  }

  lemma TwoSetsStore<V>(v: V, tag: string, low: int, high: int)
    requires 0 < low && 0 < high
    ensures var store := After(TwoSets(v, tag, low, high));
            && BuildKey("a", None) in store && store[BuildKey("a", None)].expiresAt == 1000 * high
            && BuildTagKey(tag) in store && store[BuildTagKey(tag)].expiresAt == 1000 * (low + TAG_SLACK)
    ensures Carries(TwoSets(v, tag, low, high), BuildKey("a", None), tag)
  {
    var history := TwoSets(v, tag, low, high);
    var first := history[0];
    var a, b := BuildKey("a", None), BuildKey("b", None);
    assert history[..1] == [first] && [first][..0] == [];
    KeysAreInjective("a", "b");
    BuildKeyIsCacheKey("a", None);
    BuildKeyIsCacheKey("b", None);
    assert After<V>([]) == map[];
    var one: Store<V> := After([first]);
    assert one == AfterSet(map[], "a", v, Some(high), [tag], 0);
    SetUnderOneTag(map[], "a", v, high, tag, 0, b);
    SetUnderOneTag(one, "b", v, low, tag, 0, a);
  }

  /** The slack is exact: one second more between two ttls and an entry outlives its index. */
  lemma SlackIsExact<V>(v: V, tag: string, low: int, high: int)
    requires 0 < low && high > low + 60
    ensures var history := TwoSets(v, tag, low, high);
            var now := 1000 * (low + 60);
            && Chronological(history, now) && TtlsAtLeast(history, tag, low) && TtlsAtMost(history, tag, high)
            && Carries(history, BuildKey("a", None), tag)
            && Live(Invalidated(After(history), [tag], now), BuildKey("a", None), now)
  {
    var history := TwoSets(v, tag, low, high);
    var now := 1000 * (low + 60);
    TwoSetsStore(v, tag, low, high);
    assert Tagged(After(history), tag, now) == [];
    SingleTag(After(history), BuildKey("a", None), tag, low, now);
    assert history[..1] == [history[0]] && [history[0]][..0] == [];
  }
}
