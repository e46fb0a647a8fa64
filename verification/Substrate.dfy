/** The substrate layer: a bounded write-through cache with expiry in milliseconds over a
    key-value store with expiry in seconds and a durable store without expiry.  Each public
    operation is one atomic step at a given millisecond of a clock that never runs backwards. */
module Substrate {
  import opened Prelude

  const CACHE_MAX_SIZE := 1000
  const CACHE_TTL := 60000

  /** A JSON value, `undefined` being no value at all. */
  datatype Json = Null | Data(text: string)

  datatype Cached = Cached(value: Json, expiresAt: int)

  datatype KvItem = KvItem(value: Json, expiresAt: Option<int>)

  datatype Layer = Layer(
    cache: seq<Entry<string, Cached>>,
    kv: Option<map<string, KvItem>>,
    durable: Option<map<string, Json>>
  )

  /** Which adapters answer during an operation; a call to one that does not throws. */
  datatype Weather = Weather(kvUp: bool, durableUp: bool)

  // ----- The key-value store -----

  /** A time to live of zero is falsy, and then the item does not expire. */
  function KvExpiry(ttl: int, now: int): Option<int> {
    if ttl == 0 then None else Some(now + 1000 * ttl)
  }

  function KvGet(kv: map<string, KvItem>, key: string, now: int): Option<Json> {
    if key in kv && (kv[key].expiresAt.None? || now < kv[key].expiresAt.value) then Some(kv[key].value) else None
  }

  predicate Present(v: Option<Json>) {
    v.Some? && v.value != Null
  }

  // ----- The local cache -----

  /** The first of the entries that expire soonest. */
  ghost function Oldest(cache: seq<Entry<string, Cached>>): (i: nat)
    requires cache != []
    ensures i < |cache|
  {
    var n := |cache| - 1;
    if n == 0 then 0 else
      var i := Oldest(cache[..n]);
      if cache[n].value.expiresAt < cache[i].value.expiresAt then n else i
  }

  ghost function Evicted(cache: seq<Entry<string, Cached>>): seq<Entry<string, Cached>> {
    if |cache| >= CACHE_MAX_SIZE then cache[..Oldest(cache)] + cache[Oldest(cache) + 1..] else cache
  }

  ghost function UpdateCache(cache: seq<Entry<string, Cached>>, key: string, value: Json, ttl: int, now: int): seq<Entry<string, Cached>> {
    Put(Evicted(cache), key, Cached(value, now + ttl))
  }

  ghost function Lookup(cache: seq<Entry<string, Cached>>, key: string, now: int): Option<Json> {
    var i := Position(cache, key);
    if i >= 0 && cache[i].value.expiresAt > now then Some(cache[i].value.value) else None
  }

  ghost function AfterLookup(cache: seq<Entry<string, Cached>>, key: string, now: int): seq<Entry<string, Cached>> {
    if Lookup(cache, key, now).Some? then cache else Remove(cache, key)
  }

  // ----- The operations -----

  ghost function Write(l: Layer, key: string, value: Json, ttl: Option<int>, durable: bool, now: int, w: Weather): Layer {
    var life := if ttl.Some? then ttl.value else CACHE_TTL;
    var cached := UpdateCache(l.cache, key, value, life, now);
    if l.kv.Some? && !durable then
      if w.kvUp then Layer(cached, Some(l.kv.value[key := KvItem(value, KvExpiry(life, now))]), l.durable)
      else l.(cache := cached)
    else if l.durable.Some? && durable then
      if w.durableUp then Layer(cached, l.kv, Some(l.durable.value[key := value]))
      else l.(cache := cached)
    else l.(cache := cached)
  }

  /** What the backing stores answer, and whether the answer is cached. */
  ghost function Fetch(l: Layer, key: string, now: int, w: Weather): Option<Json> {
    if l.kv.Some? && !w.kvUp then None
    else if l.kv.Some? && Present(KvGet(l.kv.value, key, now)) then KvGet(l.kv.value, key, now)
    else if l.durable.Some? && w.durableUp && key in l.durable.value && l.durable.value[key] != Null then
      Some(l.durable.value[key])
    else None
  }

  ghost function ReadResult(l: Layer, key: string, now: int, w: Weather): Option<Json> {
    if Lookup(l.cache, key, now).Some? then Lookup(l.cache, key, now) else Fetch(l, key, now, w)
  }

  ghost function AfterRead(l: Layer, key: string, now: int, w: Weather): Layer {
    if Lookup(l.cache, key, now).Some? then l else
      var cache := AfterLookup(l.cache, key, now);
      var v := Fetch(l, key, now, w);
      l.(cache := if v.Some? then UpdateCache(cache, key, v.value, CACHE_TTL, now) else cache)
  }

  ghost function Delete(l: Layer, key: string, w: Weather): Layer {
    var cache := Remove(l.cache, key);
    if l.kv.Some? && !w.kvUp then l.(cache := cache)
    else
      Layer(cache,
            if l.kv.Some? then Some(l.kv.value - {key}) else None,
            if l.durable.Some? && w.durableUp then Some(l.durable.value - {key}) else l.durable)
  }

  // ----- Runs -----

  datatype Op =
    | Writing(key: string, value: Json, ttl: Option<int>, durable: bool)
    | Reading(key: string)
    | Deleting(key: string)
    | Transacting(key: string, modifier: Option<Json> -> Json, ttl: Option<int>, durable: bool)
    | Clearing

  datatype Written = Written(value: Json, at: int, ttl: int)

  /** The layer, and the write each key still stands under. */
  datatype Traced = Traced(layer: Layer, latest: map<string, Written>)

  ghost function Recorded(latest: map<string, Written>, key: string, value: Json, ttl: Option<int>, now: int): map<string, Written> {
    latest[key := Written(value, now, if ttl.Some? then ttl.value else CACHE_TTL)]
  }

  const FAIR := Weather(true, true)

  ghost function Perform(t: Traced, op: Op, now: int): Traced {
    match op
    case Writing(key, value, ttl, durable) =>
      Traced(Write(t.layer, key, value, ttl, durable, now, FAIR), Recorded(t.latest, key, value, ttl, now))
    case Reading(key) => t.(layer := AfterRead(t.layer, key, now, FAIR))
    case Deleting(key) => Traced(Delete(t.layer, key, FAIR), t.latest - {key})
    case Transacting(key, modifier, ttl, durable) =>
      var value := modifier(ReadResult(t.layer, key, now, FAIR));
      Traced(Write(AfterRead(t.layer, key, now, FAIR), key, value, ttl, durable, now, FAIR),
             Recorded(t.latest, key, value, ttl, now))
    case Clearing => t.(layer := t.layer.(cache := []))
  }

  ghost function Run(t: Traced, ops: seq<(Op, int)>): Traced {
    if ops == [] then t
    else Perform(Run(t, ops[..|ops| - 1]), ops[|ops| - 1].0, ops[|ops| - 1].1)
  }

  /** Each key is always written with the same durability. */
  ghost predicate Steady(durableKeys: set<string>, op: Op) {
    (op.Writing? || op.Transacting?) ==> (op.durable <==> op.key in durableKeys)
  }

  ghost predicate SteadyRun(durableKeys: set<string>, ops: seq<(Op, int)>) {
    forall o :: o in ops ==> Steady(durableKeys, o.0)
  }

  // ----- Coherence -----

  ghost predicate CacheCoherent(t: Traced) {
    forall e :: e in t.layer.cache ==> e.key in t.latest && e.value.value == t.latest[e.key].value
  }

  ghost predicate KvCoherent(t: Traced, durableKeys: set<string>) {
    t.layer.kv.Some? ==>
      forall k :: k in t.layer.kv.value ==>
        k in t.latest && k !in durableKeys &&
        t.layer.kv.value[k] == KvItem(t.latest[k].value, KvExpiry(t.latest[k].ttl, t.latest[k].at))
  }

  ghost predicate DurableCoherent(t: Traced, durableKeys: set<string>) {
    t.layer.durable.Some? ==>
      forall k :: k in t.layer.durable.value ==>
        k in t.latest && k in durableKeys && t.layer.durable.value[k] == t.latest[k].value
  }

  ghost predicate Bounded(cache: seq<Entry<string, Cached>>) {
    UniqueKeys(cache) && |cache| <= 1000
  }

  /** A cached value of the key-value store expires within one default refill after the store
      has dropped it. */
  ghost predicate CacheFresh(t: Traced, durableKeys: set<string>) {
    t.layer.kv.Some? ==>
      forall e :: e in t.layer.cache && e.key in t.latest && e.key !in durableKeys && t.latest[e.key].ttl > 0 ==>
        e.value.expiresAt < t.latest[e.key].at + 1000 * t.latest[e.key].ttl + CACHE_TTL
  }

  ghost predicate Coherent(t: Traced, durableKeys: set<string>) {
    CacheCoherent(t) && KvCoherent(t, durableKeys) && DurableCoherent(t, durableKeys) &&
    Bounded(t.layer.cache) && CacheFresh(t, durableKeys)
  }

  // ----- The cache operations -----

  lemma {:induction false} OldestIsLeast(cache: seq<Entry<string, Cached>>)
    requires cache != []
    ensures forall e :: e in cache ==> cache[Oldest(cache)].value.expiresAt <= e.value.expiresAt
    ensures forall j :: 0 <= j < Oldest(cache) ==> cache[Oldest(cache)].value.expiresAt < cache[j].value.expiresAt
  {
    var n := |cache| - 1;
    if n > 0 {
      OldestIsLeast(cache[..n]);
      assert cache == cache[..n] + [cache[n]];
      assert cache[..n][Oldest(cache[..n])] in cache[..n];
    }
  }

  lemma RemovedFromCache(cache: seq<Entry<string, Cached>>, i: nat)
    requires UniqueKeys(cache) && i < |cache|
    ensures UniqueKeys(cache[..i] + cache[i + 1..])
    ensures forall e :: e in cache[..i] + cache[i + 1..] <==> e in cache && e.key != cache[i].key
  {
    var rest := cache[..i] + cache[i + 1..];
    forall e | e in cache && e.key != cache[i].key ensures e in rest {
      var j :| 0 <= j < |cache| && cache[j] == e;
      assert e == rest[if j < i then j else j - 1];
    }
  }

  /** A full cache gives up one entry, of those that expire soonest the first. */
  lemma EvictionTakesOldest(cache: seq<Entry<string, Cached>>)
    requires Bounded(cache)
    ensures Bounded(Evicted(cache)) && |Evicted(cache)| < CACHE_MAX_SIZE
    ensures |cache| < 1000 ==> Evicted(cache) == cache
    ensures forall e :: e in Evicted(cache) ==> e in cache
    ensures |cache| == CACHE_MAX_SIZE ==>
      exists i :: 0 <= i < |cache| && Evicted(cache) == cache[..i] + cache[i + 1..] && ExpiresFirst(cache, i)
  {
    if |cache| >= CACHE_MAX_SIZE {
      RemovedFromCache(cache, Oldest(cache));
      OldestIsLeast(cache);
      assert ExpiresFirst(cache, Oldest(cache));
    }
  }

  ghost predicate ExpiresFirst(cache: seq<Entry<string, Cached>>, i: nat) {
    i < |cache| && (forall e :: e in cache ==> cache[i].value.expiresAt <= e.value.expiresAt) &&
    forall j :: 0 <= j < i ==> cache[i].value.expiresAt < cache[j].value.expiresAt
  }

  lemma UpdatedCache(cache: seq<Entry<string, Cached>>, key: string, value: Json, ttl: int, now: int)
    requires Bounded(cache)
    ensures Bounded(UpdateCache(cache, key, value, ttl, now))
    ensures forall e :: e in UpdateCache(cache, key, value, ttl, now) ==>
      e == Entry(key, Cached(value, now + ttl)) || (e in cache && e.key != key)
    ensures Entry(key, Cached(value, now + ttl)) in UpdateCache(cache, key, value, ttl, now)
  {
    EvictionTakesOldest(cache);
    PutExactly(Evicted(cache), key, Cached(value, now + ttl));
  }

  lemma PutExactly(cache: seq<Entry<string, Cached>>, key: string, c: Cached)
    requires UniqueKeys(cache)
    ensures UniqueKeys(Put(cache, key, c)) && |Put(cache, key, c)| <= |cache| + 1
    ensures forall e :: e in Put(cache, key, c) ==> e == Entry(key, c) || (e in cache && e.key != key)
    ensures Entry(key, c) in Put(cache, key, c)
  {
    var i := Position(cache, key);
    var after := Put(cache, key, c);
    assert after[if i >= 0 then i else |cache|] == Entry(key, c);
  }

  lemma RemovedKey(cache: seq<Entry<string, Cached>>, key: string)
    requires Bounded(cache)
    ensures Bounded(Remove(cache, key))
    ensures forall e :: e in Remove(cache, key) <==> e in cache && e.key != key
  {
    var i := Position(cache, key);
    if i >= 0 {
      RemovedFromCache(cache, i);
    } else {
      forall e | e in cache ensures e.key != key {
        var j :| 0 <= j < |cache| && cache[j] == e;
      }
    }
  }

  // ----- Every operation keeps coherence -----

  lemma WriteKeepsCoherent(t: Traced, durableKeys: set<string>, key: string, value: Json, ttl: Option<int>, durable: bool, now: int)
    requires Coherent(t, durableKeys) && (durable <==> key in durableKeys)
    ensures Coherent(Perform(t, Writing(key, value, ttl, durable), now), durableKeys)
  {
    var life := if ttl.Some? then ttl.value else CACHE_TTL;
    UpdatedCache(t.layer.cache, key, value, life, now);
  }

  lemma ReadKeepsCoherent(t: Traced, durableKeys: set<string>, key: string, now: int)
    requires Coherent(t, durableKeys)
    ensures Coherent(Perform(t, Reading(key), now), durableKeys)
  {
    if Lookup(t.layer.cache, key, now).None? {
      RemovedKey(t.layer.cache, key);
      var v := Fetch(t.layer, key, now, FAIR);
      if v.Some? {
        UpdatedCache(Remove(t.layer.cache, key), key, v.value, CACHE_TTL, now);
      }
    }
  }

  lemma DeleteKeepsCoherent(t: Traced, durableKeys: set<string>, key: string, now: int)
    requires Coherent(t, durableKeys)
    ensures Coherent(Perform(t, Deleting(key), now), durableKeys)
  {
    RemovedKey(t.layer.cache, key);
  }

  lemma TransactKeepsCoherent(t: Traced, durableKeys: set<string>, key: string, value: Json, ttl: Option<int>, durable: bool, now: int)
    requires Coherent(t, durableKeys) && (durable <==> key in durableKeys)
    ensures Coherent(Perform(Perform(t, Reading(key), now), Writing(key, value, ttl, durable), now), durableKeys)
  {
    hide Coherent, Perform;
    ReadKeepsCoherent(t, durableKeys, key, now);
    WriteKeepsCoherent(Perform(t, Reading(key), now), durableKeys, key, value, ttl, durable, now);
  }

  lemma ClearKeepsCoherent(t: Traced, durableKeys: set<string>)
    requires Coherent(t, durableKeys)
    ensures Coherent(t.(layer := t.layer.(cache := [])), durableKeys)
  {
  }

  lemma {:induction false} RunKeepsCoherent(t: Traced, durableKeys: set<string>, ops: seq<(Op, int)>)
    requires Coherent(t, durableKeys) && SteadyRun(durableKeys, ops)
    ensures Coherent(Run(t, ops), durableKeys)
  {
    hide Coherent, Write, AfterRead, ReadResult, Delete;
    if ops != [] {
      var (op, now) := ops[|ops| - 1];
      assert ops[|ops| - 1] in ops;
      RunKeepsCoherent(t, durableKeys, ops[..|ops| - 1]);
      var last := Run(t, ops[..|ops| - 1]);
      match op
      case Writing(key, value, ttl, durable) => WriteKeepsCoherent(last, durableKeys, key, value, ttl, durable, now);
      case Reading(key) => ReadKeepsCoherent(last, durableKeys, key, now);
      case Deleting(key) => DeleteKeepsCoherent(last, durableKeys, key, now);
      case Transacting(key, modifier, ttl, durable) =>
        TransactKeepsCoherent(last, durableKeys, key, modifier(ReadResult(last.layer, key, now, FAIR)), ttl, durable, now);
      case Clearing => ClearKeepsCoherent(last, durableKeys);
    }
  }

  // ----- Main results -----

  ghost function Empty(kv: bool, durable: bool): Traced {
    Traced(Layer([], if kv then Some(map[]) else None, if durable then Some(map[]) else None), map[])
  }

  /** Across expiry, eviction, refill and deletion, a read returns the most recently written
      value of its key or nothing, never an older one; and a value of the key-value store is
      not served once the store has dropped it and one default refill has passed. */
  lemma ReadsReturnLatest(kv: bool, durable: bool, durableKeys: set<string>, ops: seq<(Op, int)>, key: string, now: int)
    requires SteadyRun(durableKeys, ops)
    ensures var t := Run(Empty(kv, durable), ops);
      var v := ReadResult(t.layer, key, now, FAIR);
      v.Some? ==>
        key in t.latest && v.value == t.latest[key].value &&
        (kv && key !in durableKeys && t.latest[key].ttl > 0 ==>
           now < t.latest[key].at + 1000 * t.latest[key].ttl + CACHE_TTL - 1)
  {
    RunKeepsCoherent(Empty(kv, durable), durableKeys, ops);
    RunKeepsAdapters(Empty(kv, durable), ops);
    var t := Run(Empty(kv, durable), ops);
    var i := Position(t.layer.cache, key);
    if i >= 0 {
      assert t.layer.cache[i] in t.layer.cache;
    }
  }

  // ----- Written values are served -----

  /** The store a key belongs to holds every value that stands, however the cache fares. */
  ghost predicate Stored(t: Traced, durableKeys: set<string>) {
    (t.layer.kv.Some? ==> forall k :: k in t.latest && k !in durableKeys ==> k in t.layer.kv.value) &&
    (t.layer.durable.Some? ==> forall k :: k in t.latest && k in durableKeys ==> k in t.layer.durable.value)
  }

  lemma PerformKeepsStored(t: Traced, durableKeys: set<string>, op: Op, now: int)
    requires Stored(t, durableKeys) && Steady(durableKeys, op)
    ensures Stored(Perform(t, op, now), durableKeys)
  {
    hide UpdateCache, Lookup, AfterLookup, Fetch;
  }

  lemma {:induction false} RunKeepsStored(t: Traced, durableKeys: set<string>, ops: seq<(Op, int)>)
    requires Stored(t, durableKeys) && SteadyRun(durableKeys, ops)
    ensures Stored(Run(t, ops), durableKeys)
  {
    if ops != [] {
      assert ops[|ops| - 1] in ops;
      RunKeepsStored(t, durableKeys, ops[..|ops| - 1]);
      PerformKeepsStored(Run(t, ops[..|ops| - 1]), durableKeys, ops[|ops| - 1].0, ops[|ops| - 1].1);
    }
  }

  /** The value a key stands under is in a store that has not dropped it. */
  ghost predicate Alive(t: Traced, durableKeys: set<string>, key: string, now: int) {
    key in t.latest && t.latest[key].value != Null &&
    if key in durableKeys then t.layer.durable.Some?
    else
      t.layer.kv.Some? &&
      (t.latest[key].ttl == 0 || now < t.latest[key].at + 1000 * t.latest[key].ttl)
  }

  lemma AliveIsServed(t: Traced, durableKeys: set<string>, key: string, now: int)
    requires Coherent(t, durableKeys) && Stored(t, durableKeys) && Alive(t, durableKeys, key, now)
    ensures ReadResult(t.layer, key, now, FAIR) == Some(t.latest[key].value)
  {
    var i := Position(t.layer.cache, key);
    if i >= 0 {
      assert t.layer.cache[i] in t.layer.cache;
    }
  }

  /** A read never misses a value its store still holds, whatever the cache has evicted or let
      expire; and a key never written, or deleted since, reads as nothing. */
  lemma ReadsServeWhatIsStored(kv: bool, durable: bool, durableKeys: set<string>, ops: seq<(Op, int)>, key: string, now: int)
    requires SteadyRun(durableKeys, ops)
    ensures var t := Run(Empty(kv, durable), ops);
      (Alive(t, durableKeys, key, now) ==> ReadResult(t.layer, key, now, FAIR) == Some(t.latest[key].value)) &&
      (key !in t.latest ==> ReadResult(t.layer, key, now, FAIR) == None)
  {
    var t := Run(Empty(kv, durable), ops);
    RunKeepsCoherent(Empty(kv, durable), durableKeys, ops);
    RunKeepsStored(Empty(kv, durable), durableKeys, ops);
    ReadsReturnLatest(kv, durable, durableKeys, ops, key, now);
    if Alive(t, durableKeys, key, now) {
      AliveIsServed(t, durableKeys, key, now);
    }
  }

  lemma PerformKeepsAdapters(t: Traced, op: Op, now: int)
    ensures Perform(t, op, now).layer.kv.Some? == t.layer.kv.Some?
    ensures Perform(t, op, now).layer.durable.Some? == t.layer.durable.Some?
  {
  }

  lemma {:induction false} RunKeepsAdapters(t: Traced, ops: seq<(Op, int)>)
    ensures Run(t, ops).layer.kv.Some? == t.layer.kv.Some? && Run(t, ops).layer.durable.Some? == t.layer.durable.Some?
  {
    hide Perform;
    if ops != [] {
      RunKeepsAdapters(t, ops[..|ops| - 1]);
      PerformKeepsAdapters(Run(t, ops[..|ops| - 1]), ops[|ops| - 1].0, ops[|ops| - 1].1);
    }
  }

  /** A transaction applies its modifier to the latest value, or to nothing once the stores may
      have dropped it, and what it wrote is then the latest value. */
  lemma TransactionModifiesLatest(kv: bool, durable: bool, durableKeys: set<string>, ops: seq<(Op, int)>,
                                  key: string, modifier: Option<Json> -> Json, ttl: Option<int>, now: int)
    requires SteadyRun(durableKeys, ops)
    ensures var t := Run(Empty(kv, durable), ops);
      var after := Perform(t, Transacting(key, modifier, ttl, key in durableKeys), now);
      key in after.latest &&
      (if Alive(t, durableKeys, key, now) then after.latest[key].value == modifier(Some(t.latest[key].value))
       else
         after.latest[key].value == modifier(None) ||
         (key in t.latest && after.latest[key].value == modifier(Some(t.latest[key].value))))
  {
    ReadsReturnLatest(kv, durable, durableKeys, ops, key, now);
    ReadsServeWhatIsStored(kv, durable, durableKeys, ops, key, now);
    hide ReadResult, Write, AfterRead;
  }

  /** Whether or not the adapters answer, the cache never holds more than its maximum, nor one
      key twice. */
  lemma WriteKeepsBounded(l: Layer, key: string, value: Json, ttl: Option<int>, durable: bool, now: int, w: Weather)
    requires Bounded(l.cache)
    ensures Bounded(Write(l, key, value, ttl, durable, now, w).cache)
  {
    UpdatedCache(l.cache, key, value, if ttl.Some? then ttl.value else CACHE_TTL, now);
    hide Bounded, UpdateCache;
  }

  lemma ReadKeepsBounded(l: Layer, key: string, now: int, w: Weather)
    requires Bounded(l.cache)
    ensures Bounded(AfterRead(l, key, now, w).cache)
  {
    RemovedKey(l.cache, key);
    var v := Fetch(l, key, now, w);
    if v.Some? {
      UpdatedCache(Remove(l.cache, key), key, v.value, CACHE_TTL, now);
    }
    hide Bounded, UpdateCache;
  }

  // ----- When older values can come back -----

  /** The durable store holds a value of the key other than `v`. */
  ghost predicate OtherDurable(l: Layer, key: string, v: Json) {
    l.durable.Some? && key in l.durable.value && l.durable.value[key] != Null && l.durable.value[key] != v
  }

  /** The key-value store holds a value of the key other than `v`, not expired. */
  ghost predicate OtherKv(l: Layer, key: string, v: Json, now: int) {
    l.kv.Some? && Present(KvGet(l.kv.value, key, now)) && KvGet(l.kv.value, key, now) != Some(v)
  }

  /** The key-value store holds a value of the key that does not expire, so the durable store is
      never asked. */
  ghost predicate Covered(l: Layer, key: string) {
    l.kv.Some? && key in l.kv.value && l.kv.value[key].value != Null && l.kv.value[key].expiresAt.None?
  }

  ghost predicate OnlyHolds(l: Layer, key: string, v: Json, now: int) {
    (Lookup(l.cache, key, now).Some? ==> Lookup(l.cache, key, now) == Some(v)) &&
    !OtherKv(l, key, v, now) &&
    (OtherDurable(l, key, v) ==> Covered(l, key))
  }

  ghost predicate NothingElse(r: Option<Json>, v: Json) {
    r.Some? ==> r.value == v
  }

  /** No read from now on, whichever adapters answer, gives anything but `v` or nothing, with the
      cache as it is or emptied. */
  ghost predicate OnlyReads(l: Layer, key: string, v: Json, now: int) {
    forall t, w :: t >= now ==>
      NothingElse(ReadResult(l, key, t, w), v) && NothingElse(ReadResult(l.(cache := []), key, t, w), v)
  }

  /** Which layers can no longer give back an older value, decided by what they hold now. */
  lemma NeverOlderExactlyWhen(l: Layer, key: string, v: Json, now: int)
    ensures OnlyReads(l, key, v, now) <==> OnlyHolds(l, key, v, now)
  {
    var bare := l.(cache := []);
    if OnlyReads(l, key, v, now) {
      assert NothingElse(ReadResult(l, key, now, FAIR), v);
      assert NothingElse(ReadResult(bare, key, now, FAIR), v);
      if l.kv.Some? && key in l.kv.value && l.kv.value[key].expiresAt.Some? {
        var later := if l.kv.value[key].expiresAt.value > now then l.kv.value[key].expiresAt.value else now;
        assert NothingElse(ReadResult(bare, key, later, FAIR), v);
      }
    }
  }

  // ----- Whatever else is done with the layer -----

  /** An operation on the layer alone, whichever adapters answer. */
  ghost function Act(l: Layer, op: Op, now: int, w: Weather): Layer {
    match op
    case Writing(key, value, ttl, durable) => Write(l, key, value, ttl, durable, now, w)
    case Reading(key) => AfterRead(l, key, now, w)
    case Deleting(key) => Delete(l, key, w)
    case Transacting(key, modifier, ttl, durable) =>
      Write(AfterRead(l, key, now, w), key, modifier(ReadResult(l, key, now, w)), ttl, durable, now, w)
    case Clearing => l.(cache := [])
  }

  /** The operation neither writes nor deletes the key. */
  ghost predicate Spares(op: Op, key: string) {
    op.Reading? || op.Clearing? || op.key != key
  }

  datatype Deed = Deed(op: Op, at: int, weather: Weather)

  /** The clock never runs backwards and no operation writes or deletes the key. */
  ghost predicate Aftermath(deeds: seq<Deed>, key: string, now: int) {
    (forall d <- deeds :: Spares(d.op, key) && d.at >= now) &&
    forall i, j :: 0 <= i < j < |deeds| ==> deeds[i].at <= deeds[j].at
  }

  ghost function After(l: Layer, deeds: seq<Deed>): Layer {
    if deeds == [] then l
    else Act(After(l, deeds[..|deeds| - 1]), deeds[|deeds| - 1].op, deeds[|deeds| - 1].at, deeds[|deeds| - 1].weather)
  }

  ghost function Latest(deeds: seq<Deed>, now: int): int {
    if deeds == [] then now else deeds[|deeds| - 1].at
  }

  lemma EntryIsLookedUp(cache: seq<Entry<string, Cached>>, e: Entry<string, Cached>, now: int)
    requires UniqueKeys(cache) && e in cache
    ensures Lookup(cache, e.key, now) == if e.value.expiresAt > now then Some(e.value.value) else None
  {
    var i, j :| i == Position(cache, e.key) && 0 <= j < |cache| && cache[j] == e;
    assert i >= 0;
  }

  /** A cache all whose entries of the key come from another looks up no more than that. */
  lemma SmallerCache(cache: seq<Entry<string, Cached>>, smaller: seq<Entry<string, Cached>>, key: string, v: Json, now: int, later: int)
    requires UniqueKeys(cache) && now <= later
    requires forall e :: e in smaller && e.key == key ==> e in cache
    requires NothingElse(Lookup(cache, key, now), v)
    ensures NothingElse(Lookup(smaller, key, later), v)
  {
    var i := Position(smaller, key);
    if i >= 0 {
      assert smaller[i] in smaller;
      EntryIsLookedUp(cache, smaller[i], now);
    }
  }

  lemma UpdateElsewhere(cache: seq<Entry<string, Cached>>, other: string, value: Json, ttl: int, key: string, v: Json, now: int, later: int)
    requires Bounded(cache) && now <= later && other != key
    requires NothingElse(Lookup(cache, key, now), v)
    ensures NothingElse(Lookup(UpdateCache(cache, other, value, ttl, later), key, later), v)
    ensures Bounded(UpdateCache(cache, other, value, ttl, later))
  {
    hide Lookup, UpdateCache, Bounded;
    BoundedIsUnique(cache);
    UpdatedCache(cache, other, value, ttl, later);
    SmallerCache(cache, UpdateCache(cache, other, value, ttl, later), key, v, now, later);
  }

  lemma BoundedIsUnique(cache: seq<Entry<string, Cached>>)
    requires Bounded(cache)
    ensures UniqueKeys(cache)
  {
  }

  lemma WriteElsewhere(l: Layer, other: string, value: Json, ttl: Option<int>, durable: bool, w: Weather, key: string, v: Json, now: int, later: int)
    requires Bounded(l.cache) && now <= later && other != key && OnlyHolds(l, key, v, now)
    ensures var after := Write(l, other, value, ttl, durable, later, w); Bounded(after.cache) && OnlyHolds(after, key, v, later)
  {
    hide Lookup, UpdateCache, Bounded;
    UpdateElsewhere(l.cache, other, value, if ttl.Some? then ttl.value else CACHE_TTL, key, v, now, later);
  }

  lemma OnlyHoldsLater(l: Layer, cache: seq<Entry<string, Cached>>, key: string, v: Json, now: int, later: int)
    requires OnlyHolds(l, key, v, now) && now <= later && NothingElse(Lookup(cache, key, later), v)
    ensures OnlyHolds(l.(cache := cache), key, v, later)
  {
    hide Lookup;
  }

  lemma FetchGivesOnly(l: Layer, key: string, w: Weather, v: Json, now: int)
    requires OnlyHolds(l, key, v, now)
    ensures NothingElse(Fetch(l, key, now, w), v)
  {
    hide Lookup;
  }

  lemma RefillSpares(l: Layer, read: string, w: Weather, key: string, v: Json, now: int, later: int)
    requires Bounded(l.cache) && now <= later && OnlyHolds(l, key, v, now)
    requires Fetch(l, read, later, w).Some?
    ensures var cache := UpdateCache(Remove(l.cache, read), read, Fetch(l, read, later, w).value, CACHE_TTL, later);
      Bounded(cache) && NothingElse(Lookup(cache, key, later), v)
  {
    hide Lookup, Remove, UpdateCache, Fetch, Bounded;
    var rest, found := Remove(l.cache, read), Fetch(l, read, later, w).value;
    var cache := UpdateCache(rest, read, found, CACHE_TTL, later);
    RemovedKey(l.cache, read);
    UpdatedCache(rest, read, found, CACHE_TTL, later);
    if read == key {
      ClearKeepsOnly(l, key, v, now, later);
      FetchGivesOnly(l.(cache := []), key, w, v, later);
      FetchIgnoresCache(l, [], key, later, w);
      BoundedIsUnique(cache);
      EntryIsLookedUp(cache, Entry(read, Cached(found, later + CACHE_TTL)), later);
    } else {
      BoundedIsUnique(l.cache);
      SmallerCache(l.cache, rest, key, v, now, later);
      UpdateElsewhere(rest, read, found, CACHE_TTL, key, v, later, later);
    }
  }

  lemma FetchIgnoresCache(l: Layer, cache: seq<Entry<string, Cached>>, key: string, now: int, w: Weather)
    ensures Fetch(l.(cache := cache), key, now, w) == Fetch(l, key, now, w)
  {
  }

  lemma ReadSpares(l: Layer, read: string, w: Weather, key: string, v: Json, now: int, later: int)
    requires Bounded(l.cache) && now <= later && OnlyHolds(l, key, v, now)
    ensures var after := AfterRead(l, read, later, w); Bounded(after.cache) && OnlyHolds(after, key, v, later)
  {
    hide Lookup, Remove, UpdateCache, Fetch, Bounded, OnlyHolds;
    ReadSparesCache(l, read, w, key, v, now, later);
    OnlyHoldsLater(l, AfterRead(l, read, later, w).cache, key, v, now, later);
  }

  lemma ReadSparesCache(l: Layer, read: string, w: Weather, key: string, v: Json, now: int, later: int)
    requires Bounded(l.cache) && now <= later && OnlyHolds(l, key, v, now)
    ensures var cache := AfterRead(l, read, later, w).cache; Bounded(cache) && NothingElse(Lookup(cache, key, later), v)
  {
    hide Lookup, Remove, UpdateCache, Fetch, Bounded;
    BoundedIsUnique(l.cache);
    SmallerCache(l.cache, l.cache, key, v, now, later);
    RemovedKey(l.cache, read);
    SmallerCache(l.cache, Remove(l.cache, read), key, v, now, later);
    if Fetch(l, read, later, w).Some? {
      RefillSpares(l, read, w, key, v, now, later);
    }
  }

  lemma DeleteElsewhere(l: Layer, other: string, w: Weather, key: string, v: Json, now: int, later: int)
    requires Bounded(l.cache) && now <= later && other != key && OnlyHolds(l, key, v, now)
    ensures var after := Delete(l, other, w); Bounded(after.cache) && OnlyHolds(after, key, v, later)
  {
    hide Lookup, Bounded, Remove;
    RemovedKey(l.cache, other);
    BoundedIsUnique(l.cache);
    SmallerCache(l.cache, Remove(l.cache, other), key, v, now, later);
  }

  lemma ActKeepsOnly(l: Layer, d: Deed, key: string, v: Json, now: int)
    requires Bounded(l.cache) && OnlyHolds(l, key, v, now) && Spares(d.op, key) && now <= d.at
    ensures var after := Act(l, d.op, d.at, d.weather); Bounded(after.cache) && OnlyHolds(after, key, v, d.at)
  {
    hide OnlyHolds, Bounded, Write, AfterRead, Delete, ReadResult;
    match d.op
    case Writing(other, value, ttl, durable) => WriteElsewhere(l, other, value, ttl, durable, d.weather, key, v, now, d.at);
    case Reading(other) => ReadSpares(l, other, d.weather, key, v, now, d.at);
    case Deleting(other) => DeleteElsewhere(l, other, d.weather, key, v, now, d.at);
    case Transacting(other, modifier, ttl, durable) =>
      ReadSpares(l, other, d.weather, key, v, now, d.at);
      WriteElsewhere(AfterRead(l, other, d.at, d.weather), other, modifier(ReadResult(l, other, d.at, d.weather)), ttl, durable,
                     d.weather, key, v, d.at, d.at);
    case Clearing => ClearKeepsOnly(l, key, v, now, d.at);
  }

  lemma ClearKeepsOnly(l: Layer, key: string, v: Json, now: int, later: int)
    requires OnlyHolds(l, key, v, now) && now <= later
    ensures Bounded([]) && OnlyHolds(l.(cache := []), key, v, later)
  {
  }

  lemma {:induction false} AftermathKeepsOnly(l: Layer, deeds: seq<Deed>, key: string, v: Json, now: int)
    requires Bounded(l.cache) && OnlyHolds(l, key, v, now) && Aftermath(deeds, key, now)
    ensures var after := After(l, deeds); Bounded(after.cache) && OnlyHolds(after, key, v, Latest(deeds, now))
    ensures Latest(deeds, now) >= now
  {
    hide OnlyHolds, Bounded, Act, Spares;
    if deeds != [] {
      var n := |deeds| - 1;
      assert deeds[n] in deeds;
      assert forall d <- deeds[..n] :: d in deeds;
      AftermathKeepsOnly(l, deeds[..n], key, v, now);
      ActKeepsOnly(After(l, deeds[..n]), deeds[n], key, v, Latest(deeds[..n], now));
    }
  }

  /** A read of the key after any aftermath gives `v` or nothing. */
  ghost predicate NeverOlder(l: Layer, key: string, v: Json, now: int) {
    forall deeds, t, w :: Aftermath(deeds, key, now) && t >= Latest(deeds, now) ==>
      NothingElse(ReadResult(After(l, deeds), key, t, w), v)
  }

  /** The same holds of every way of using the layer until the key is next written or deleted. */
  lemma NothingOlderComesBackExactlyWhen(l: Layer, key: string, v: Json, now: int)
    requires Bounded(l.cache)
    ensures NeverOlder(l, key, v, now) <==> OnlyHolds(l, key, v, now)
  {
    hide OnlyHolds, ReadResult;
    if OnlyHolds(l, key, v, now) {
      forall deeds, t, w | Aftermath(deeds, key, now) && t >= Latest(deeds, now)
        ensures NothingElse(ReadResult(After(l, deeds), key, t, w), v)
      {
        AftermathKeepsOnly(l, deeds, key, v, now);
        NeverOlderExactlyWhen(After(l, deeds), key, v, Latest(deeds, now));
      }
    }
    if NeverOlder(l, key, v, now) {
      forall t, w | t >= now
        ensures NothingElse(ReadResult(l, key, t, w), v) && NothingElse(ReadResult(l.(cache := []), key, t, w), v)
      {
        var clear := [Deed(Clearing, now, FAIR)];
        assert After(l, []) == l && Latest([], now) == now && Aftermath([], key, now);
        assert clear[..0] == [] && After(l, clear) == l.(cache := []);
        assert Aftermath(clear, key, now) && Latest(clear, now) == now;
      }
      NeverOlderExactlyWhen(l, key, v, now);
    }
  }

  /** Whether a write leaves anything older to come back is decided by where it goes and what the
      other store holds: it must reach the key-value store or find no other live value there, and
      reach the durable store, find no other value there, or leave one that never expires before it. */
  lemma WriteIsFinalExactlyWhen(l: Layer, key: string, value: Json, ttl: Option<int>, durable: bool, now: int, w: Weather)
    requires Bounded(l.cache)
    ensures var toKv := l.kv.Some? && !durable && w.kvUp;
      var toDurable := l.durable.Some? && durable && w.durableUp;
      var covered := if toKv then value != Null && ttl == Some(0) else Covered(l, key);
      NeverOlder(Write(l, key, value, ttl, durable, now, w), key, value, now) <==>
      (toKv || !OtherKv(l, key, value, now)) && (toDurable || !OtherDurable(l, key, value) || covered)
  {
    hide NeverOlder, Write, Lookup, OtherKv, OtherDurable, Covered;
    var after := Write(l, key, value, ttl, durable, now, w);
    WriteStores(l, key, value, ttl, durable, now, w);
    WriteCaches(l, key, value, ttl, durable, now, w);
    NothingOlderComesBackExactlyWhen(after, key, value, now);
  }

  lemma WriteCaches(l: Layer, key: string, value: Json, ttl: Option<int>, durable: bool, now: int, w: Weather)
    requires Bounded(l.cache)
    ensures var after := Write(l, key, value, ttl, durable, now, w);
      Bounded(after.cache) && NothingElse(Lookup(after.cache, key, now), value)
  {
    hide Lookup, UpdateCache;
    var life := if ttl.Some? then ttl.value else CACHE_TTL;
    UpdatedCache(l.cache, key, value, life, now);
    EntryIsLookedUp(UpdateCache(l.cache, key, value, life, now), Entry(key, Cached(value, now + life)), now);
  }

  lemma WriteStores(l: Layer, key: string, value: Json, ttl: Option<int>, durable: bool, now: int, w: Weather)
    ensures var after := Write(l, key, value, ttl, durable, now, w);
      var toKv := l.kv.Some? && !durable && w.kvUp;
      var toDurable := l.durable.Some? && durable && w.durableUp;
      (OtherKv(after, key, value, now) <==> !toKv && OtherKv(l, key, value, now)) &&
      (OtherDurable(after, key, value) <==> !toDurable && OtherDurable(l, key, value)) &&
      (Covered(after, key) <==> if toKv then value != Null && ttl == Some(0) else Covered(l, key))
  {
    hide UpdateCache;
  }

  /** A durable write lets an older value come back exactly when the key-value store still holds
      another; one that is not durable, exactly when the durable store holds another and the
      value written can expire or is null. */
  lemma MixedDurabilityServesOlderExactlyWhen(l: Layer, key: string, value: Json, ttl: Option<int>, now: int)
    requires Bounded(l.cache) && l.kv.Some? && l.durable.Some?
    ensures !NeverOlder(Write(l, key, value, ttl, true, now, FAIR), key, value, now) <==> OtherKv(l, key, value, now)
    ensures !NeverOlder(Write(l, key, value, ttl, false, now, FAIR), key, value, now) <==>
            OtherDurable(l, key, value) && (value == Null || ttl != Some(0))
  {
    hide NeverOlder, Write;
    WriteIsFinalExactlyWhen(l, key, value, ttl, true, now, FAIR);
    WriteIsFinalExactlyWhen(l, key, value, ttl, false, now, FAIR);
  }

  /** A write no store takes lets an older value come back exactly when a store holds one that it
      will be asked for. */
  lemma FailedWriteServesOlderExactlyWhen(l: Layer, key: string, value: Json, ttl: Option<int>, durable: bool, now: int, w: Weather)
    requires Bounded(l.cache) && if durable then !w.durableUp else !w.kvUp
    ensures !NeverOlder(Write(l, key, value, ttl, durable, now, w), key, value, now) <==>
            OtherKv(l, key, value, now) || (OtherDurable(l, key, value) && !Covered(l, key))
  {
    hide NeverOlder, Write;
    WriteIsFinalExactlyWhen(l, key, value, ttl, durable, now, w);
  }

  // ----- When a deleted value can come back -----

  /** No read of the key after any aftermath gives a value. */
  ghost predicate NeverAgain(l: Layer, key: string, now: int) {
    forall deeds, t, w :: Aftermath(deeds, key, now) && t >= Latest(deeds, now) ==>
      ReadResult(After(l, deeds), key, t, w) == None
  }

  lemma NeverAgainIsNeverAnything(l: Layer, key: string, now: int)
    ensures NeverAgain(l, key, now) <==> NeverOlder(l, key, Null, now) && NeverOlder(l, key, Data(""), now)
  {
    hide Aftermath, After, Latest, ReadResult;
    if NeverOlder(l, key, Null, now) && NeverOlder(l, key, Data(""), now) {
      forall deeds, t, w | Aftermath(deeds, key, now) && t >= Latest(deeds, now)
        ensures ReadResult(After(l, deeds), key, t, w) == None
      {
        var r := ReadResult(After(l, deeds), key, t, w);
        assert NothingElse(r, Null) && NothingElse(r, Data(""));
      }
    }
  }

  /** The key-value store holds a value of the key, not expired. */
  ghost predicate InKv(l: Layer, key: string, now: int) {
    l.kv.Some? && Present(KvGet(l.kv.value, key, now))
  }

  ghost predicate InDurable(l: Layer, key: string) {
    l.durable.Some? && key in l.durable.value && l.durable.value[key] != Null
  }

  /** Whether a delete leaves nothing to come back is decided by which adapter answers and what the
      stores hold: one that fails must hold no value, and when the key-value store fails the
      durable store, which is then not asked, must hold none either. */
  lemma DeleteIsFinalExactlyWhen(l: Layer, key: string, now: int, w: Weather)
    requires Bounded(l.cache)
    ensures var stopped := l.kv.Some? && !w.kvUp;
      NeverAgain(Delete(l, key, w), key, now) <==>
      (stopped ==> !InKv(l, key, now)) && (stopped || !w.durableUp ==> !InDurable(l, key))
  {
    hide NeverOlder, NeverAgain, Delete, Lookup;
    var after := Delete(l, key, w);
    DeleteClears(l, key, now, w);
    NothingOlderComesBackExactlyWhen(after, key, Null, now);
    NothingOlderComesBackExactlyWhen(after, key, Data(""), now);
    NeverAgainIsNeverAnything(after, key, now);
  }

  lemma DeleteClears(l: Layer, key: string, now: int, w: Weather)
    requires Bounded(l.cache)
    ensures var after := Delete(l, key, w); var stopped := l.kv.Some? && !w.kvUp;
      Bounded(after.cache) && Lookup(after.cache, key, now) == None &&
      (InKv(after, key, now) <==> stopped && InKv(l, key, now)) &&
      (InDurable(after, key) <==> (stopped || !w.durableUp) && InDurable(l, key))
  {
    hide Bounded, Remove, Lookup;
    RemovedKey(l.cache, key);
    AbsentIsNotLookedUp(Remove(l.cache, key), key, now);
  }

  lemma AbsentIsNotLookedUp(cache: seq<Entry<string, Cached>>, key: string, now: int)
    requires forall e :: e in cache ==> e.key != key
    ensures Lookup(cache, key, now) == None
  {
    assert forall i :: 0 <= i < |cache| ==> cache[i] in cache;
  }

  // ----- The limits of the results -----

  /** A cache that holds one key only. */
  lemma OneKey(key: string, c: Cached, value: Json, ttl: int, now: int)
    ensures UpdateCache([], key, value, ttl, now) == [Entry(key, Cached(value, now + ttl))]
    ensures UpdateCache([Entry(key, c)], key, value, ttl, now) == [Entry(key, Cached(value, now + ttl))]
    ensures Remove([Entry(key, c)], key) == []
    ensures Position([Entry(key, c)], key) == 0
  {
  }

  lemma TwoSteps(t: Traced, first: (Op, int), second: (Op, int))
    ensures Run(t, [first, second]) == Perform(Perform(t, first.0, first.1), second.0, second.1)
  {
    var ops := [first, second];
    assert ops[..1] == [first] && ops[..1][..0] == [];
    hide Perform;
    assert Run(t, ops[..1]) == Perform(t, first.0, first.1);
  }

  /** The bound of `ReadsReturnLatest` is met exactly: a read just before the store drops the
      value keeps it in the cache for a whole default refill more. */
  lemma StalenessBoundIsSharp(key: string, value: Json, ttl: int)
    requires value != Null && ttl > 0
    ensures var t := Run(Empty(true, false), [(Writing(key, value, Some(ttl), false), 0), (Reading(key), 1000 * ttl - 1)]);
      ReadResult(t.layer, key, 1000 * ttl + CACHE_TTL - 2, FAIR) == Some(value)
  {
    TwoSteps(Empty(true, false), (Writing(key, value, Some(ttl), false), 0), (Reading(key), 1000 * ttl - 1));
    RefillJustInTime(key, value, ttl);
  }

  lemma RefillJustInTime(key: string, value: Json, ttl: int)
    requires value != Null && ttl > 0
    ensures var t := Perform(Empty(true, false), Writing(key, value, Some(ttl), false), 0);
      var u := Perform(t, Reading(key), 1000 * ttl - 1);
      ReadResult(u.layer, key, 1000 * ttl + CACHE_TTL - 2, FAIR) == Some(value)
  {
    OneKey(key, Cached(value, ttl), value, ttl, 0);
    OneKey(key, Cached(value, ttl), value, CACHE_TTL, 1000 * ttl - 1);
    OneKey(key, Cached(value, 1000 * ttl - 1 + CACHE_TTL), value, ttl, 0);
    hide UpdateCache, Remove, Position;
    var t := Perform(Empty(true, false), Writing(key, value, Some(ttl), false), 0);
    assert t.layer == Layer([Entry(key, Cached(value, ttl))], Some(map[key := KvItem(value, Some(1000 * ttl))]), None);
    var u := Perform(t, Reading(key), 1000 * ttl - 1);
    assert u.layer.cache == [Entry(key, Cached(value, 1000 * ttl - 1 + CACHE_TTL))];
  }

  /** A key written under both durabilities can come back with its older value. */
  lemma MixedDurabilityServesOlder(key: string, older: Json, newer: Json)
    requires older != newer && older != Null
    ensures var t := Run(Empty(true, true), [(Writing(key, older, Some(60), false), 0), (Writing(key, newer, Some(1), true), 1)]);
      t.latest[key].value == newer && ReadResult(t.layer, key, 2, FAIR) == Some(older)
  {
    TwoSteps(Empty(true, true), (Writing(key, older, Some(60), false), 0), (Writing(key, newer, Some(1), true), 1));
    OlderUnderneath(key, older, newer);
  }

  lemma OlderUnderneath(key: string, older: Json, newer: Json)
    requires older != newer && older != Null
    ensures var t := Perform(Perform(Empty(true, true), Writing(key, older, Some(60), false), 0), Writing(key, newer, Some(1), true), 1);
      t.latest[key].value == newer && ReadResult(t.layer, key, 2, FAIR) == Some(older)
  {
    OneKey(key, Cached(older, 60), older, 60, 0);
    OneKey(key, Cached(older, 60), newer, 1, 1);
    OneKey(key, Cached(newer, 2), newer, 1, 1);
    hide UpdateCache, Remove, Position;
    var t := Perform(Empty(true, true), Writing(key, older, Some(60), false), 0);
    assert t.layer == Layer([Entry(key, Cached(older, 60))], Some(map[key := KvItem(older, Some(60000))]), Some(map[]));
    var u := Perform(t, Writing(key, newer, Some(1), true), 1);
    assert u.layer.cache == [Entry(key, Cached(newer, 2))];
  }

  /** So can a key whose last write the store did not take. */
  lemma FailedWriteServesOlder(key: string, older: Json, newer: Json)
    requires older != newer && older != Null
    ensures var l := Write(Empty(true, true).layer, key, older, Some(60), false, 0, FAIR);
      var m := Write(l, key, newer, Some(1), false, 1, Weather(false, true));
      ReadResult(m, key, 1, FAIR) == Some(newer) && ReadResult(m, key, 2, FAIR) == Some(older)
  {
    OneKey(key, Cached(older, 60), older, 60, 0);
    OneKey(key, Cached(older, 60), newer, 1, 1);
    OneKey(key, Cached(newer, 2), newer, 1, 1);
    hide UpdateCache, Position;
    var l := Write(Empty(true, true).layer, key, older, Some(60), false, 0, FAIR);
    assert l == Layer([Entry(key, Cached(older, 60))], Some(map[key := KvItem(older, Some(60000))]), Some(map[]));
    var m := Write(l, key, newer, Some(1), false, 1, Weather(false, true));
    assert m == l.(cache := [Entry(key, Cached(newer, 2))]);
  }

  /** And so can one deleted while the key-value store does not answer. */
  lemma FailedDeleteServesAgain(key: string, value: Json)
    requires value != Null
    ensures var l := Write(Empty(true, true).layer, key, value, Some(60), false, 0, FAIR);
      ReadResult(Delete(l, key, Weather(false, true)), key, 1, FAIR) == Some(value)
  {
    OneKey(key, Cached(value, 60), value, 60, 0);
    hide UpdateCache, Remove;
    var l := Write(Empty(true, true).layer, key, value, Some(60), false, 0, FAIR);
    assert l == Layer([Entry(key, Cached(value, 60))], Some(map[key := KvItem(value, Some(60000))]), Some(map[]));
    assert Delete(l, key, Weather(false, true)) == l.(cache := []);
  }

  // ----- The layer as an object -----

  class SubstrateLayer {
    var localCache: seq<Entry<string, Cached>>
    var kvStore: Option<map<string, KvItem>>
    var durableStore: Option<map<string, Json>>

    ghost function View(): Layer
      reads this
    {
      Layer(localCache, kvStore, durableStore)
    }

    ghost predicate Valid()
      reads this
    {
      Bounded(localCache)
    }

    constructor (kvStore: Option<map<string, KvItem>>, durableStore: Option<map<string, Json>>)
      ensures Valid() && View() == Layer([], kvStore, durableStore)
    {
      localCache, this.kvStore, this.durableStore := [], kvStore, durableStore;
    }

    method WriteKey(key: string, value: Json, ttlOption: Option<int>, durable: bool, now: int, w: Weather)
      requires Valid()
      modifies this
      ensures Valid() && View() == Write(old(View()), key, value, ttlOption, durable, now, w)
      ensures Entry(key, Cached(value, now + if ttlOption.Some? then ttlOption.value else 60000)) in localCache
    {
      WriteKeepsBounded(View(), key, value, ttlOption, durable, now, w);
      UpdatedCache(localCache, key, value, if ttlOption.Some? then ttlOption.value else 60000, now);
      hide UpdateCache;
      var ttl := if ttlOption.Some? then ttlOption.value else CACHE_TTL;
      if kvStore.Some? && !durable {
        if w.kvUp {
          kvStore := Some(kvStore.value[key := KvItem(value, KvExpiry(ttl, now))]);
        }
        UpdateLocalCache(key, value, ttl, now);
        return;
      }
      if durableStore.Some? && durable {
        if w.durableUp {
          durableStore := Some(durableStore.value[key := value]);
        }
        UpdateLocalCache(key, value, ttl, now);
        return;
      }
      UpdateLocalCache(key, value, ttl, now);
    }

    method ReadKey(key: string, now: int, w: Weather) returns (result: Option<Json>)
      requires Valid()
      modifies this`localCache
      ensures Valid() && View() == AfterRead(old(View()), key, now, w)
      ensures result == ReadResult(old(View()), key, now, w)
    {
      ReadKeepsBounded(View(), key, now, w);
      RemovedKey(localCache, key);
      result := GetFromCache(key, now);
      if result.Some? {
        return;
      }
      if kvStore.Some? {
        if !w.kvUp {
          return None;
        }
        var value := KvGet(kvStore.value, key, now);
        if Present(value) {
          UpdateLocalCache(key, value.value, CACHE_TTL, now);
          return value;
        }
      }
      if durableStore.Some? {
        if !w.durableUp {
          return None;
        }
        if key in durableStore.value && durableStore.value[key] != Null {
          UpdateLocalCache(key, durableStore.value[key], CACHE_TTL, now);
          return Some(durableStore.value[key]);
        }
      }
      return None;
    }

    method DeleteKey(key: string, w: Weather)
      requires Valid()
      modifies this
      ensures Valid() && View() == Delete(old(View()), key, w)
    {
      RemovedKey(localCache, key);
      localCache := Remove(localCache, key);
      if kvStore.Some? {
        if !w.kvUp {
          return;
        }
        kvStore := Some(kvStore.value - {key});
      }
      if durableStore.Some? {
        if !w.durableUp {
          return;
        }
        durableStore := Some(durableStore.value - {key});
      }
    }

    /** Read, modify, write; the two halves may see different moments and adapters. */
    method Transaction(key: string, modifier: Option<Json> -> Json, ttl: Option<int>, durable: bool,
                       now: int, later: int, w: Weather, w': Weather) returns (modified: Json)
      requires Valid()
      modifies this
      ensures Valid()
      ensures modified == modifier(ReadResult(old(View()), key, now, w))
      ensures View() == Write(AfterRead(old(View()), key, now, w), key, modified, ttl, durable, later, w')
    {
      var current := ReadKey(key, now, w);
      modified := modifier(current);
      WriteKey(key, modified, ttl, durable, later, w');
    }

    /** The eviction loop finds the first entry of least expiry. */
    method FindOldest() returns (oldest: nat)
      requires localCache != []
      ensures oldest == Oldest(localCache)
    {
      oldest := 0;
      for i := 1 to |localCache|
        invariant oldest == Oldest(localCache[..i])
      {
        assert localCache[..i + 1][..i] == localCache[..i];
        if localCache[i].value.expiresAt < localCache[oldest].value.expiresAt {
          oldest := i;
        }
      }
      assert localCache[..|localCache|] == localCache;
    }

    method UpdateLocalCache(key: string, value: Json, ttl: int, now: int)
      requires Valid()
      modifies this`localCache
      ensures Valid() && localCache == UpdateCache(old(localCache), key, value, ttl, now)
    {
      UpdatedCache(localCache, key, value, ttl, now);
      hide Bounded, Oldest, Put;
      if |localCache| >= CACHE_MAX_SIZE {
        var oldest := FindOldest();
        localCache := localCache[..oldest] + localCache[oldest + 1..];
      }
      localCache := Put(localCache, key, Cached(value, now + ttl));
    }

    method GetFromCache(key: string, now: int) returns (result: Option<Json>)
      modifies this`localCache
      ensures localCache == AfterLookup(old(localCache), key, now)
      ensures result == Lookup(old(localCache), key, now)
    {
      var i := Position(localCache, key);
      if i < 0 {
        return None;
      }
      if localCache[i].value.expiresAt > now {
        return Some(localCache[i].value.value);
      }
      localCache := Remove(localCache, key);
      return None;
    }
  }
}
