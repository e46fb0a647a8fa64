/** What a read gives after a write, and how long: on the cache alone, on the stores behind it, and
    through whatever else is done with the layer meanwhile. */
module SubstrateHistory {
  import opened Prelude
  import opened Substrate

  /** The time to live of a write, a minute when none is given. */
  ghost function Life(ttl: Option<int>): int {
    if ttl.Some? then ttl.value else 60000
  }

  // ----- Straight after a write or a read -----

  ghost predicate Caches(cache: seq<Entry<string, Cached>>, key: string, value: Json, until: int) {
    Entry(key, Cached(value, until)) in cache
  }

  lemma CachedIsRead(l: Layer, key: string, value: Json, until: int, t: int, w: Weather)
    requires Bounded(l.cache) && Caches(l.cache, key, value, until) && t < until
    ensures ReadResult(l, key, t, w) == Some(value) && AfterRead(l, key, t, w) == l
  {
    hide Fetch;
    EntryIsLookedUp(l.cache, Entry(key, Cached(value, until)), t);
  }

  lemma WriteIsCached(l: Layer, key: string, value: Json, ttl: Option<int>, durable: bool, now: int, w: Weather)
    requires Bounded(l.cache)
    ensures var after := Write(l, key, value, ttl, durable, now, w);
      Bounded(after.cache) && Caches(after.cache, key, value, now + Life(ttl))
  {
    UpdatedCache(l.cache, key, value, Life(ttl), now);
    hide UpdateCache, Bounded;
  }

  /** Whichever adapters there are and answer, a value written is read back in any weather until its
      time to live has passed. */
  lemma WriteIsReadBack(l: Layer, key: string, value: Json, ttl: Option<int>, durable: bool, now: int, w: Weather, t: int, w': Weather)
    requires Bounded(l.cache) && now <= t < now + Life(ttl)
    ensures ReadResult(Write(l, key, value, ttl, durable, now, w), key, t, w') == Some(value)
  {
    hide ReadResult, Write;
    WriteIsCached(l, key, value, ttl, durable, now, w);
    CachedIsRead(Write(l, key, value, ttl, durable, now, w), key, value, now + Life(ttl), t, w');
  }

  /** A value read from a store is read again, in any weather, for a minute. */
  lemma ReadIsReadBack(l: Layer, key: string, now: int, w: Weather, t: int, w': Weather)
    requires Bounded(l.cache) && Lookup(l.cache, key, now).None? && ReadResult(l, key, now, w).Some?
    requires now <= t < now + 60000
    ensures ReadResult(AfterRead(l, key, now, w), key, t, w') == ReadResult(l, key, now, w)
  {
    var v := Fetch(l, key, now, w).value;
    RemovedKey(l.cache, key);
    UpdatedCache(Remove(l.cache, key), key, v, 60000, now);
    hide Fetch, UpdateCache, Bounded;
    CachedIsRead(AfterRead(l, key, now, w), key, v, now + 60000, t, w');
  }

  /** What the key-value store holds of a key, not expired. */
  ghost function KvHolds(l: Layer, key: string, t: int): Json {
    if l.kv.Some? && key in l.kv.value && (l.kv.value[key].expiresAt.None? || t < l.kv.value[key].expiresAt.value)
    then l.kv.value[key].value else Null
  }

  ghost function DurableHolds(l: Layer, key: string): Json {
    if l.durable.Some? && key in l.durable.value then l.durable.value[key] else Null
  }

  /** A read gives the live cached value; or what the key-value store holds, nothing if that fails;
      or what the durable store holds, if it answers. */
  lemma ReadExactly(l: Layer, key: string, t: int, w: Weather)
    ensures ReadResult(l, key, t, w) ==
      if Lookup(l.cache, key, t).Some? then Lookup(l.cache, key, t)
      else if l.kv.Some? && !w.kvUp then None
      else if KvHolds(l, key, t) != Null then Some(KvHolds(l, key, t))
      else if DurableHolds(l, key) != Null && w.durableUp then Some(DurableHolds(l, key))
      else None
  {
    hide Lookup;
  }

  /** Exactly what a read gives at any time after a write: the value written until its time to live
      has passed; then what the key-value store holds, if it answers, which is the value written
      if it took it and for a thousand times as long, or always if that time is zero; and then
      what the durable store holds, if it answers. */
  lemma ReadAfterWriteExactly(l: Layer, key: string, value: Json, ttl: Option<int>, durable: bool, now: int, w: Weather, t: int, w': Weather)
    requires Bounded(l.cache) && now <= t
    ensures var toKv := l.kv.Some? && !durable && w.kvUp;
      var toDurable := l.durable.Some? && durable && w.durableUp;
      var inKv := if toKv then (if Life(ttl) == 0 || t < now + 1000 * Life(ttl) then value else Null) else KvHolds(l, key, t);
      var inDurable := if toDurable then value else DurableHolds(l, key);
      ReadResult(Write(l, key, value, ttl, durable, now, w), key, t, w') ==
        if t < now + Life(ttl) then Some(value)
        else if l.kv.Some? && !w'.kvUp then None
        else if inKv != Null then Some(inKv)
        else if inDurable != Null && w'.durableUp then Some(inDurable)
        else None
  {
    hide Write, ReadResult, Lookup, KvHolds, DurableHolds, Bounded;
    var after := Write(l, key, value, ttl, durable, now, w);
    WriteIsCached(l, key, value, ttl, durable, now, w);
    BoundedIsUnique(after.cache);
    EntryIsLookedUp(after.cache, Entry(key, Cached(value, now + Life(ttl))), t);
    StoresAfterWrite(l, key, value, ttl, durable, now, w, t);
    ReadExactly(after, key, t, w');
  }

  lemma StoresAfterWrite(l: Layer, key: string, value: Json, ttl: Option<int>, durable: bool, now: int, w: Weather, t: int)
    ensures var toKv := l.kv.Some? && !durable && w.kvUp;
      var toDurable := l.durable.Some? && durable && w.durableUp;
      var after := Write(l, key, value, ttl, durable, now, w);
      after.kv.Some? == l.kv.Some? &&
      KvHolds(after, key, t) == (if toKv then (if Life(ttl) == 0 || t < now + 1000 * Life(ttl) then value else Null) else KvHolds(l, key, t)) &&
      DurableHolds(after, key) == if toDurable then value else DurableHolds(l, key)
  {
    hide UpdateCache;
  }

  /** A write leaves what the stores hold of other keys, and a cached value of another key unless
      the cache was full and this one to go. */
  lemma WriteLeavesOthers(l: Layer, key: string, value: Json, ttl: Option<int>, durable: bool, now: int, w: Weather, other: string, t: int)
    requires Bounded(l.cache) && other != key
    ensures var after := Write(l, key, value, ttl, durable, now, w);
      KvHolds(after, other, t) == KvHolds(l, other, t) && DurableHolds(after, other) == DurableHolds(l, other) &&
      forall e <- l.cache :: e.key == other ==> (e in after.cache || (|l.cache| >= 1000 && e == l.cache[Oldest(l.cache)]))
  {
    hide Oldest, Put;
    if |l.cache| >= 1000 {
      RemovedFromCache(l.cache, Oldest(l.cache));
      forall e | e in l.cache && e.key == l.cache[Oldest(l.cache)].key ensures e == l.cache[Oldest(l.cache)] {
      }
    }
    EvictionTakesOldest(l.cache);
    PutMembers(Evicted(l.cache), key, Cached(value, now + Life(ttl)));
    hide Evicted, Bounded;
  }

  // ----- Through whatever else is done -----

  ghost predicate Within(cache: seq<Entry<string, Cached>>, keys: set<string>) {
    forall e <- cache :: e.key in keys
  }

  lemma {:induction false} KeysFit(cache: seq<Entry<string, Cached>>, keys: set<string>)
    requires UniqueKeys(cache) && Within(cache, keys)
    ensures |cache| <= |keys|
  {
    if cache != [] {
      var n := |cache| - 1;
      assert cache[n] in cache;
      assert forall e <- cache[..n] :: e in cache;
      KeysFit(cache[..n], keys - {cache[n].key});
    }
  }

  /** The operation is on one of the keys, and neither writes nor deletes this one. */
  ghost predicate Beside(op: Op, key: string, keys: set<string>) {
    !op.Clearing? && op.key in keys && (op.Reading? || op.key != key)
  }

  ghost predicate Stays(cache: seq<Entry<string, Cached>>, key: string, value: Json, until: int, keys: set<string>) {
    Bounded(cache) && Within(cache, keys) && Caches(cache, key, value, until)
  }

  lemma UpdateStays(cache: seq<Entry<string, Cached>>, other: string, v: Json, ttl: int, at: int, key: string, value: Json, until: int, keys: set<string>)
    requires Stays(cache, key, value, until, keys) && other in keys && other != key && |keys| < 1000
    ensures Stays(UpdateCache(cache, other, v, ttl, at), key, value, until, keys)
  {
    hide Put, Evicted;
    KeysFit(cache, keys);
    EvictionTakesOldest(cache);
    UpdatedCache(cache, other, v, ttl, at);
    PutMembers(cache, other, Cached(v, at + ttl));
  }

  lemma RemoveStays(cache: seq<Entry<string, Cached>>, other: string, key: string, value: Json, until: int, keys: set<string>)
    requires Stays(cache, key, value, until, keys) && other != key
    ensures Stays(Remove(cache, other), key, value, until, keys)
  {
    RemovedKey(cache, other);
  }

  lemma ReadStays(l: Layer, other: string, w: Weather, at: int, key: string, value: Json, until: int, keys: set<string>)
    requires Stays(l.cache, key, value, until, keys) && other in keys && |keys| < 1000 && at < until
    ensures Stays(AfterRead(l, other, at, w).cache, key, value, until, keys)
  {
    if other == key {
      CachedIsRead(l, key, value, until, at, w);
    } else {
      RemoveStays(l.cache, other, key, value, until, keys);
      hide Stays, UpdateCache, Fetch, Remove, Lookup;
      if Fetch(l, other, at, w).Some? {
        UpdateStays(Remove(l.cache, other), other, Fetch(l, other, at, w).value, CACHE_TTL, at, key, value, until, keys);
      }
      if Lookup(l.cache, other, at).None? && Fetch(l, other, at, w).None? {
        assert AfterRead(l, other, at, w).cache == Remove(l.cache, other);
      }
    }
  }

  lemma WriteStays(l: Layer, other: string, v: Json, ttl: Option<int>, durable: bool, w: Weather, at: int, key: string, value: Json, until: int, keys: set<string>)
    requires Stays(l.cache, key, value, until, keys) && other in keys && other != key && |keys| < 1000
    ensures Stays(Write(l, other, v, ttl, durable, at, w).cache, key, value, until, keys)
  {
    hide Stays, UpdateCache;
    UpdateStays(l.cache, other, v, Life(ttl), at, key, value, until, keys);
  }

  lemma ActStays(l: Layer, d: Deed, key: string, value: Json, until: int, keys: set<string>)
    requires Stays(l.cache, key, value, until, keys) && Beside(d.op, key, keys) && |keys| < 1000 && d.at < until
    ensures Stays(Act(l, d.op, d.at, d.weather).cache, key, value, until, keys)
  {
    hide Stays, Write, AfterRead, ReadResult, Remove;
    match d.op
    case Writing(other, v, ttl, durable) => WriteStays(l, other, v, ttl, durable, d.weather, d.at, key, value, until, keys);
    case Reading(other) => ReadStays(l, other, d.weather, d.at, key, value, until, keys);
    case Deleting(other) => RemoveStays(l.cache, other, key, value, until, keys);
    case Transacting(other, modifier, ttl, durable) =>
      ReadStays(l, other, d.weather, d.at, key, value, until, keys);
      WriteStays(AfterRead(l, other, d.at, d.weather), other, modifier(ReadResult(l, other, d.at, d.weather)), ttl, durable,
                 d.weather, d.at, key, value, until, keys);
  }

  lemma {:induction false} DeedsStay(l: Layer, deeds: seq<Deed>, key: string, value: Json, until: int, keys: set<string>)
    requires Stays(l.cache, key, value, until, keys) && |keys| < 1000
    requires forall d <- deeds :: Beside(d.op, key, keys) && d.at < until
    ensures Stays(After(l, deeds).cache, key, value, until, keys)
  {
    hide Stays, Act, Beside;
    if deeds != [] {
      var n := |deeds| - 1;
      assert deeds[n] in deeds && forall d <- deeds[..n] :: d in deeds;
      DeedsStay(l, deeds[..n], key, value, until, keys);
      ActStays(After(l, deeds[..n]), deeds[n], key, value, until, keys);
    }
  }

  /** While fewer than a thousand keys are in use, a value written is read back, in any weather,
      until its time to live has passed, whatever is done meanwhile that neither writes nor deletes
      its key nor clears the cache. */
  lemma WriteIsReadBackThrough(l: Layer, key: string, value: Json, ttl: Option<int>, durable: bool, now: int, w: Weather,
                               deeds: seq<Deed>, keys: set<string>, t: int, w': Weather)
    requires Bounded(l.cache) && Within(l.cache, keys) && key in keys && |keys| < 1000
    requires forall d <- deeds :: Beside(d.op, key, keys) && d.at < now + Life(ttl)
    requires t < now + Life(ttl)
    ensures ReadResult(After(Write(l, key, value, ttl, durable, now, w), deeds), key, t, w') == Some(value)
  {
    hide Write, ReadResult, After, Beside;
    var start, until := Write(l, key, value, ttl, durable, now, w), now + Life(ttl);
    WriteIsCached(l, key, value, ttl, durable, now, w);
    WriteIsWithin(l, key, value, ttl, durable, now, w, keys);
    DeedsStay(start, deeds, key, value, until, keys);
    CachedIsRead(After(start, deeds), key, value, until, t, w');
  }

  lemma WriteIsWithin(l: Layer, key: string, value: Json, ttl: Option<int>, durable: bool, now: int, w: Weather, keys: set<string>)
    requires Bounded(l.cache) && Within(l.cache, keys) && key in keys
    ensures Within(Write(l, key, value, ttl, durable, now, w).cache, keys)
  {
    UpdatedCache(l.cache, key, value, Life(ttl), now);
    hide UpdateCache, Bounded;
  }

  // ----- However full the cache -----

  ghost predicate Keeps(cache: seq<Entry<string, Cached>>, key: string) {
    exists e <- cache :: e.key == key
  }

  /** The entries of the key are among those there were. */
  ghost predicate NoNew(cache: seq<Entry<string, Cached>>, before: seq<Entry<string, Cached>>, key: string) {
    Bounded(cache) && forall e <- cache :: e.key == key ==> e in before
  }

  lemma WriteIsNoNew(l: Layer, other: string, v: Json, ttl: Option<int>, durable: bool, w: Weather, at: int, key: string)
    requires Bounded(l.cache) && other != key
    ensures NoNew(Write(l, other, v, ttl, durable, at, w).cache, l.cache, key)
  {
    UpdatedCache(l.cache, other, v, Life(ttl), at);
    hide UpdateCache, Bounded;
  }

  lemma ReadIsNoNew(l: Layer, other: string, w: Weather, at: int, key: string)
    requires Bounded(l.cache) && (other == key ==> Lookup(l.cache, key, at).Some?)
    ensures NoNew(AfterRead(l, other, at, w).cache, l.cache, key)
  {
    RemovedKey(l.cache, other);
    hide Lookup, Fetch, UpdateCache, Remove, Bounded;
    if Fetch(l, other, at, w).Some? {
      UpdatedCache(Remove(l.cache, other), other, Fetch(l, other, at, w).value, CACHE_TTL, at);
    }
  }

  lemma ActIsNoNew(l: Layer, d: Deed, key: string)
    requires Bounded(l.cache) && Spares(d.op, key) && (d.op == Reading(key) ==> Lookup(l.cache, key, d.at).Some?)
    ensures NoNew(Act(l, d.op, d.at, d.weather).cache, l.cache, key)
  {
    hide Write, AfterRead, ReadResult, Remove, Lookup;
    match d.op
    case Writing(other, v, ttl, durable) => WriteIsNoNew(l, other, v, ttl, durable, d.weather, d.at, key);
    case Reading(other) => ReadIsNoNew(l, other, d.weather, d.at, key);
    case Deleting(other) => RemovedKey(l.cache, other);
    case Transacting(other, modifier, ttl, durable) =>
      ReadIsNoNew(l, other, d.weather, d.at, key);
      WriteIsNoNew(AfterRead(l, other, d.at, d.weather), other, modifier(ReadResult(l, other, d.at, d.weather)), ttl, durable,
                   d.weather, d.at, key);
    case Clearing =>
  }

  lemma KeptIsTheSame(cache: seq<Entry<string, Cached>>, before: seq<Entry<string, Cached>>, key: string, value: Json, until: int)
    requires Bounded(before) && Caches(before, key, value, until) && NoNew(cache, before, key) && Keeps(cache, key)
    ensures Caches(cache, key, value, until)
  {
    var e :| e in cache && e.key == key;
    var i :| 0 <= i < |before| && before[i] == e;
    var j :| 0 <= j < |before| && before[j] == Entry(key, Cached(value, until));
    assert i == j;
  }

  /** No deed writes or deletes the key, and after each the cache still has it. */
  ghost predicate AlwaysKept(l: Layer, deeds: seq<Deed>, key: string, until: int) {
    (forall d <- deeds :: Spares(d.op, key) && d.at < until) && forall k :: 0 <= k <= |deeds| ==> Keeps(After(l, deeds[..k]).cache, key)
  }

  lemma {:induction false} KeptStays(l: Layer, deeds: seq<Deed>, key: string, value: Json, until: int)
    requires Bounded(l.cache) && Caches(l.cache, key, value, until) && AlwaysKept(l, deeds, key, until)
    ensures Bounded(After(l, deeds).cache) && Caches(After(l, deeds).cache, key, value, until)
  {
    hide Act, Bounded, Caches, Spares;
    if deeds != [] {
      var n := |deeds| - 1;
      var before := After(l, deeds[..n]);
      assert deeds[n] in deeds && forall d <- deeds[..n] :: d in deeds;
      assert forall k :: 0 <= k <= n ==> deeds[..n][..k] == deeds[..k];
      KeptStays(l, deeds[..n], key, value, until);
      CachedIsFound(before.cache, key, value, until, deeds[n].at);
      ActIsNoNew(before, deeds[n], key);
      assert deeds[..n + 1] == deeds;
      KeptIsTheSame(After(l, deeds).cache, before.cache, key, value, until);
    }
  }

  lemma CachedIsFound(cache: seq<Entry<string, Cached>>, key: string, value: Json, until: int, t: int)
    requires Bounded(cache) && Caches(cache, key, value, until) && t < until
    ensures Lookup(cache, key, t) == Some(value)
  {
    EntryIsLookedUp(cache, Entry(key, Cached(value, until)), t);
  }

  /** However full the cache, a value written is read back, in any weather, until its time to live
      has passed, so long as no deed writes or deletes its key and none evicts or clears it. */
  lemma WriteIsReadBackWhileKept(l: Layer, key: string, value: Json, ttl: Option<int>, durable: bool, now: int, w: Weather,
                                 deeds: seq<Deed>, t: int, w': Weather)
    requires Bounded(l.cache) && AlwaysKept(Write(l, key, value, ttl, durable, now, w), deeds, key, now + Life(ttl)) && t < now + Life(ttl)
    ensures ReadResult(After(Write(l, key, value, ttl, durable, now, w), deeds), key, t, w') == Some(value)
  {
    hide Write, ReadResult, After, AlwaysKept;
    WriteIsCached(l, key, value, ttl, durable, now, w);
    KeptStays(Write(l, key, value, ttl, durable, now, w), deeds, key, value, now + Life(ttl));
    CachedIsRead(After(Write(l, key, value, ttl, durable, now, w), deeds), key, value, now + Life(ttl), t, w');
  }
}
