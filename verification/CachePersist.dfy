/** Saving the cache to a file and loading it back (src/dns_mw_cache.rs). */
module CachePersist {
  import opened Dns
  import opened Lru
  import opened Cache
  import opened CacheStore
  import opened CacheFile

  const MAGIC: Bytes := [83, 77, 67, 65, 67, 72, 69, 0]
  const FORMAT_VERSION: nat := 3
  const HEADER_LEN: nat := 14

  // ---------------------------------------------------------------- header

  /** Magic, version and entry count, the numbers least significant byte first. */
  function Header(count: nat): (h: Bytes)
    requires count < 0x1_0000_0000
    ensures |h| == HEADER_LEN && h[..8] == MAGIC
    ensures h[8] as int + h[9] as int * 256 == FORMAT_VERSION
    ensures ((h[13] as int * 256 + h[12] as int) * 256 + h[11] as int) * 256 + h[10] as int == count
  {
    MAGIC + [FORMAT_VERSION % 256, FORMAT_VERSION / 256]
    + [count % 256, (count / 256) % 256, (count / 0x1_0000) % 256, count / 0x100_0000]
  }

  /** The version and the declared count, or nothing when there is no header. */
  function ParseHeader(d: Bytes): Option<(nat, nat)> {
    if |d| < HEADER_LEN || d[..8] != MAGIC then None
    else
      Some((d[8] as int + d[9] as int * 256,
            d[10] as int + d[11] as int * 256 + d[12] as int * 0x1_0000 + d[13] as int * 0x100_0000))
  }

  lemma Digits(n: nat)
    requires n < 0x1_0000_0000
    ensures n % 256 + (n / 256) % 256 * 256 + (n / 0x1_0000) % 256 * 0x1_0000 + n / 0x100_0000 * 0x100_0000 == n
  {
  }

  lemma HeaderRoundTrip(count: nat, payload: Bytes)
    requires count < 0x1_0000_0000
    ensures ParseHeader(Header(count) + payload) == Some((FORMAT_VERSION, count))
    ensures (Header(count) + payload)[HEADER_LEN..] == payload
  {
    var h := Header(count);
    var d := h + payload;
    assert h[..8] == MAGIC && d[..8] == h[..8];
    assert h[10] == count % 256;
    assert h[11] == (count / 256) % 256;
    assert h[12] == (count / 0x1_0000) % 256;
    assert h[13] == count / 0x100_0000;
    Digits(count);
  }

  // ---------------------------------------------------------------- saving

  function ValueOf(): Item<CacheKey, Entry> -> Entry {
    (it: Item<CacheKey, Entry>) => it.value
  }

  function Values(s: Shard<CacheKey, Entry>): (es: seq<Entry>) {
    MapSeq(ValueOf(), s)
  }

  /** The whole file: header, then shard after shard, each in recency order. */
  function FileOf(w: Wire, shards: Slots, t: int): Bytes {
    Header(Total(shards) % 0x1_0000_0000) + EmitAll(w, Values(Listing(shards)), t)
  }

  lemma Associative(x: Bytes, y: Bytes, z: Bytes)
    ensures x + (y + z) == x + y + z
  {
  }

  lemma ChunkBytesHead(x: Bytes, rest: seq<Bytes>)
    ensures ChunkBytes([x] + rest) == x + ChunkBytes(rest)
  {
    assert ([x] + rest)[1..] == rest;
  }

  lemma {:induction false} ChunkBytesConcat(a: seq<Bytes>, b: seq<Bytes>)
    ensures ChunkBytes(a + b) == ChunkBytes(a) + ChunkBytes(b)
  {
    if a == [] {
      assert a + b == b;
    } else {
      ChunkBytesConcat(a[1..], b);
      assert a + b == [a[0]] + (a[1..] + b);
      ChunkBytesHead(a[0], a[1..] + b);
      Associative(a[0], ChunkBytes(a[1..]), ChunkBytes(b));
    }
  }

  lemma MapSeqConcat<X, Y>(f: X -> Y, a: seq<X>, b: seq<X>)
    ensures MapSeq(f, a + b) == MapSeq(f, a) + MapSeq(f, b)
  {
  }

  lemma EmitAllConcat(w: Wire, a: Shard<CacheKey, Entry>, b: Shard<CacheKey, Entry>, t: int)
    ensures EmitAll(w, Values(a + b), t) == EmitAll(w, Values(a), t) + EmitAll(w, Values(b), t)
  {
    MapSeqConcat(ValueOf(), a, b);
    MapSeqConcat(Emitter(w, t), Values(a), Values(b));
    ChunkBytesConcat(Chunks(w, Values(a), t), Chunks(w, Values(b), t));
  }

  lemma EmitAllOne(w: Wire, it: Item<CacheKey, Entry>, t: int)
    ensures EmitAll(w, Values([it]), t) == Emit(w, it.value, t)
  {
    var x := Emit(w, it.value, t);
    assert Chunks(w, Values([it]), t) == [x];
    assert ChunkBytes([x]) == x + ChunkBytes([x][1..]);
    assert x + ChunkBytes([]) == x;
  }

  lemma EmitAllNext(w: Wire, s: Shard<CacheKey, Entry>, i: nat, t: int)
    requires i < |s|
    ensures EmitAll(w, Values(s[..i + 1]), t) == EmitAll(w, Values(s[..i]), t) + Emit(w, s[i].value, t)
  {
    assert s[..i + 1] == s[..i] + [s[i]];
    EmitAllConcat(w, s[..i], [s[i]], t);
    EmitAllOne(w, s[i], t);
  }

  method SerializeMany(w: Wire, s: Shard<CacheKey, Entry>, t: int) returns (buffer: Bytes)
    ensures buffer == EmitAll(w, Values(s), t)
  {
    buffer := [];
    for i := 0 to |s|
      invariant buffer == EmitAll(w, Values(s[..i]), t)
    {
      EmitAllNext(w, s, i, t);
      buffer := buffer + Emit(w, s[i].value, t);
    }
    assert s[..|s|] == s;
  }

  method PersistCache(w: Wire, cache: DnsCache, t: int) returns (file: Bytes)
    requires cache.Valid()
    ensures file == FileOf(w, cache.shards, t)
  {
    var count := cache.TotalLen();
    var shards := cache.shards;
    var header := Header(count % 0x1_0000_0000);
    var body := PersistShards(w, shards, t);
    file := header + body;
  }

  method PersistShards(w: Wire, shards: Slots, t: int) returns (body: Bytes)
    ensures body == EmitAll(w, Values(Listing(shards)), t)
  {
    body := [];
    for i := 0 to |shards|
      invariant body == EmitAll(w, Values(Listing(shards[..i])), t)
    {
      var buffer := SerializeMany(w, shards[i], t);
      ListingStep(w, shards, i, t);
      body := body + buffer;
    }
    assert shards[..|shards|] == shards;
  }

  lemma ListingStep(w: Wire, shards: Slots, i: nat, t: int)
    requires i < |shards|
    ensures EmitAll(w, Values(Listing(shards[..i + 1])), t) ==
            EmitAll(w, Values(Listing(shards[..i])), t) + EmitAll(w, Values(shards[i]), t)
  {
    assert shards[..i + 1][..i] == shards[..i];
    EmitAllConcat(w, Listing(shards[..i]), shards[i], t);
  }

  // ---------------------------------------------------------------- loading

  /** The deadline of a loaded entry, moved back by the time the program was not running. */
  function Shifted(validUntil: int, now: int, offline: int): int {
    if validUntil > now then
      var remaining := validUntil - now;
      if remaining > offline then validUntil - offline else now - (offline - remaining)
    else validUntil - offline
  }

  function KeyOf(e: Entry): CacheKey {
    CacheKey(e.data.query, if e.group.Some? then e.group.value else "default", e.ecs, e.opts)
  }

  /** How a file is to be loaded. */
  datatype Load = Load(hash: Hasher, cap: nat, now: int, offline: int, onlyMissing: bool) {
    function One(shards: Slots, e: Entry): (out: Slots)
      ensures |out| == |shards|
    {
      var k, i := KeyOf(e), ShardOf(hash, KeyOf(e));
      if |shards| != SHARD_COUNT || (onlyMissing && Has(shards[i], k)) then shards
      else shards[i := Put(shards[i], cap, k, e.(validUntil := Shifted(e.validUntil, now, offline)))]
    }

    function Loader(): (Slots, Entry) -> Slots {
      (shards, e) => One(shards, e)
    }

    /** Entries are loaded in file order. */
    function All(shards: Slots, es: seq<Entry>): Slots {
      Fold(Loader(), shards, es)
    }
  }

  function Fold<S, E>(f: (S, E) -> S, s: S, es: seq<E>): S {
    if es == [] then s else f(Fold(f, s, es[..|es| - 1]), es[|es| - 1])
  }

  lemma {:induction false} FoldConcat<S, E>(f: (S, E) -> S, s: S, a: seq<E>, b: seq<E>)
    ensures Fold(f, s, a + b) == Fold(f, Fold(f, s, a), b)
  {
    if b == [] {
      assert a + b == a;
    } else {
      assert (a + b)[..|a + b| - 1] == a + b[..|b| - 1];
      FoldConcat(f, s, a, b[..|b| - 1]);
    }
  }

  /** What loading a file does: an unknown version is left alone, a file without a header is
      read in the old format, a damaged one as far as it goes. */
  function LoadFile(w: Wire, how: Load, shards: Slots, file: Bytes): Slots {
    var header := ParseHeader(file);
    if header.Some? && header.value.0 != FORMAT_VERSION then shards
    else
      var payload := if header.Some? then file[HEADER_LEN..] else file;
      how.All(shards, Salvage(ReadEntry(w, how.now), payload).0)
  }

  method LoadCache(w: Wire, cache: DnsCache, file: Bytes, now: int, offline: int, onlyMissing: bool)
    requires cache.Valid()
    modifies cache`shards
    ensures cache.Valid()
    ensures cache.shards == LoadFile(w, Load(cache.hash, cache.cap, now, offline, onlyMissing), old(cache.shards), file)
  {
    var header := ParseHeader(file);
    if header.Some? && header.value.0 != FORMAT_VERSION {
      return;
    }
    var payload := if header.Some? then file[HEADER_LEN..] else file;
    var entries, _ := DeserializeBestEffort(ReadEntry(w, now), payload);
    LoadEntries(cache, entries, now, offline, onlyMissing);
  }

  method LoadEntries(cache: DnsCache, entries: seq<Entry>, now: int, offline: int, onlyMissing: bool)
    requires cache.Valid()
    modifies cache`shards
    ensures cache.Valid()
    ensures cache.shards == Load(cache.hash, cache.cap, now, offline, onlyMissing).All(old(cache.shards), entries)
  {
    ghost var how := Load(cache.hash, cache.cap, now, offline, onlyMissing);
    for n := 0 to |entries|
      invariant cache.Valid()
      invariant cache.shards == how.All(old(cache.shards), entries[..n])
    {
      AllNext(how, old(cache.shards), entries, n);
      LoadEntry(cache, entries[n], now, offline, onlyMissing);
    }
    assert entries[..|entries|] == entries;
  }

  lemma AllNext(how: Load, shards: Slots, es: seq<Entry>, n: nat)
    requires n < |es|
    ensures how.All(shards, es[..n + 1]) == how.One(how.All(shards, es[..n]), es[n])
  {
    assert es[..n + 1][..n] == es[..n];
  }

  method LoadEntry(cache: DnsCache, e: Entry, now: int, offline: int, onlyMissing: bool)
    requires cache.Valid()
    modifies cache`shards
    ensures cache.Valid()
    ensures cache.shards == Load(cache.hash, cache.cap, now, offline, onlyMissing).One(old(cache.shards), e)
  {
    var k, i := KeyOf(e), ShardOf(cache.hash, KeyOf(e));
    var aged := e.(validUntil := Shifted(e.validUntil, now, offline));
    if !(onlyMissing && Has(cache.shards[i], k)) {
      assert ShardOk(cache.hash, cache.cap, cache.shards[i], i);
      PutShardOk(cache.hash, cache.cap, cache.shards[i], i, k, aged);
      WriteBack(cache.hash, cache.cap, cache.shards, i, Put(cache.shards[i], cache.cap, k, aged));
      cache.shards := cache.shards[i := Put(cache.shards[i], cache.cap, k, aged)];
    }
  }

  // ---------------------------------------------------------------- deadlines across a restart

  /** A deadline saved at `t`, read `delay` after loading began at `now`, with the program down
      for `now - t`: it becomes the save time plus the whole seconds that were left, or minus
      the whole seconds it had been dead, whatever the length of the downtime. */
  lemma DeadlineAfterRestart(deadline: int, t: int, now: int, delay: int)
    requires t <= now && delay >= 0
    ensures Shifted(Reread(deadline, t, now + delay), now, now - t) == Reread(deadline, t, t) + delay
  {
  }

  /** Read without delay, a live deadline never moves later, and moves earlier by less than a
      second when no more than a day remained; a dead one never comes back past the save time. */
  lemma DeadlineBounds(deadline: int, t: int, now: int)
    requires t <= now
    ensures var d := Shifted(Reread(deadline, t, now), now, now - t);
            && (deadline > t ==> t <= d <= deadline)
            && (t < deadline <= t + MAX_TTL * SECOND ==> deadline - d < SECOND)
            && (t + MAX_TTL * SECOND < deadline < t + 0x1_0000_0000 * SECOND ==> d == t + MAX_TTL * SECOND)
            && (deadline <= t ==> d <= t)
            && (t - MAX_TTL * SECOND <= deadline <= t ==> deadline <= d < deadline + SECOND)
            && (t - 0x1_0000_0000 * SECOND < deadline < t - MAX_TTL * SECOND - SECOND ==> d == t - MAX_TTL * SECOND)
  {
    DeadlineAfterRestart(deadline, t, now, 0);
  }

  // ---------------------------------------------------------------- the round trip

  /** Entries as the cache keeps them, within what the format can represent. */
  ghost predicate Saveable(w: Wire, it: Item<CacheKey, Entry>) {
    && Representable(w, it.value)
    && it.value.group == Some(it.key.group)
    && it.key.query == it.value.data.query && it.key.ecs == it.value.ecs && it.key.opts == it.value.opts
  }

  ghost predicate AllSaveable(w: Wire, s: Shard<CacheKey, Entry>) {
    forall j :: 0 <= j < |s| ==> Saveable(w, s[j])
  }

  /** What saving at `t` and loading at `now` makes of an entry. */
  function Restored(it: Item<CacheKey, Entry>, t: int, now: int): Item<CacheKey, Entry> {
    var e := Reloaded(it.value, t, now);
    it.(value := e.(validUntil := Shifted(e.validUntil, now, now - t)))
  }

  /** A shard after the round trip: the same entries, recency reversed. */
  function RestoredShard(s: Shard<CacheKey, Entry>, t: int, now: int): (r: Shard<CacheKey, Entry>)
    ensures |r| == |s| && forall j :: 0 <= j < |s| ==> r[j] == Restored(s[|s| - 1 - j], t, now)
  {
    seq(|s|, j requires 0 <= j < |s| => Restored(s[|s| - 1 - j], t, now))
  }

  lemma FoldSnoc<S, E>(f: (S, E) -> S, s: S, es: seq<E>, e: E)
    ensures Fold(f, s, es + [e]) == f(Fold(f, s, es), e)
  {
    assert (es + [e])[..|es|] == es;
  }

  /** Loading a new key puts it in front of its shard. */
  lemma LoadNew(how: Load, shards: Slots, i: nat, r: Shard<CacheKey, Entry>, it: Item<CacheKey, Entry>, t: int)
    requires |shards| == SHARD_COUNT && i < SHARD_COUNT && ShardOf(how.hash, it.key) == i
    requires |r| < how.cap && !Has(r, it.key)
    requires KeyOf(Reloaded(it.value, t, how.now)) == it.key && how.offline == how.now - t
    ensures how.One(shards[i := r], Reloaded(it.value, t, how.now)) == shards[i := [Restored(it, t, how.now)] + r]
  {
  }

  lemma RestoredSnoc(s: Shard<CacheKey, Entry>, it: Item<CacheKey, Entry>, t: int, now: int)
    ensures RestoredShard(s + [it], t, now) == [Restored(it, t, now)] + RestoredShard(s, t, now)
    ensures ReloadedAll(Values(s + [it]), t, now) == ReloadedAll(Values(s), t, now) + [Reloaded(it.value, t, now)]
  {
  }

  lemma RestoredLacks(s: Shard<CacheKey, Entry>, t: int, now: int, k: CacheKey)
    requires forall j :: 0 <= j < |s| ==> s[j].key != k
    ensures !Has(RestoredShard(s, t, now), k)
  {
    HasMember(RestoredShard(s, t, now), k);
  }

  lemma SaveableKey(w: Wire, it: Item<CacheKey, Entry>, t: int, now: int)
    requires Saveable(w, it)
    ensures KeyOf(Reloaded(it.value, t, now)) == it.key
  {
  }

  lemma LoadStep(w: Wire, how: Load, shards: Slots, i: nat, init: Shard<CacheKey, Entry>, last: Item<CacheKey, Entry>, t: int)
    requires |shards| == SHARD_COUNT && i < SHARD_COUNT && how.offline == how.now - t
    requires ShardOk(how.hash, how.cap, init + [last], i) && Saveable(w, last)
    ensures how.One(shards[i := RestoredShard(init, t, how.now)], Reloaded(last.value, t, how.now)) ==
            shards[i := RestoredShard(init + [last], t, how.now)]
  {
    var s := init + [last];
    assert s[|init|] == last && forall j :: 0 <= j < |init| ==> s[j] == init[j];
    RestoredSnoc(init, last, t, how.now);
    RestoredLacks(init, t, how.now, last.key);
    SaveableKey(w, last, t, how.now);
    LoadNew(how, shards, i, RestoredShard(init, t, how.now), last, t);
  }

  /** Loading one shard's entries into an empty slot rebuilds the shard back to front. */
  lemma {:induction false} LoadShard(w: Wire, how: Load, shards: Slots, i: nat, s: Shard<CacheKey, Entry>, t: int)
    requires |shards| == SHARD_COUNT && i < SHARD_COUNT && shards[i] == []
    requires ShardOk(how.hash, how.cap, s, i) && AllSaveable(w, s) && how.offline == how.now - t
    ensures how.All(shards, ReloadedAll(Values(s), t, how.now)) == shards[i := RestoredShard(s, t, how.now)]
  {
    if s == [] {
      assert RestoredShard(s, t, how.now) == shards[i];
    } else {
      var init, last := s[..|s| - 1], s[|s| - 1];
      assert s == init + [last];
      LoadShard(w, how, shards, i, init, t);
      RestoredSnoc(init, last, t, how.now);
      FoldSnoc(how.Loader(), shards, ReloadedAll(Values(init), t, how.now), Reloaded(last.value, t, how.now));
      LoadStep(w, how, shards, i, init, last, t);
    }
  }

  /** A cache that holds nothing. */
  function EmptySlots(): (s: Slots)
    ensures |s| == SHARD_COUNT && forall i :: 0 <= i < SHARD_COUNT ==> s[i] == []
  {
    seq(SHARD_COUNT, _ => [])
  }

  ghost predicate LoadedUpTo(out: Slots, shards: Slots, n: nat, t: int, now: int) {
    && |out| == |shards| == SHARD_COUNT && n <= SHARD_COUNT
    && (forall i :: 0 <= i < n ==> out[i] == RestoredShard(shards[i], t, now))
    && (forall i :: n <= i < SHARD_COUNT ==> out[i] == [])
  }

  lemma ReloadedListing(shards: Slots, n: nat, t: int, now: int)
    requires 0 < n <= |shards|
    ensures ReloadedAll(Values(Listing(shards[..n])), t, now) ==
            ReloadedAll(Values(Listing(shards[..n - 1])), t, now) + ReloadedAll(Values(shards[n - 1]), t, now)
  {
    assert shards[..n][..n - 1] == shards[..n - 1];
  }

  lemma {:induction false} LoadListing(w: Wire, how: Load, shards: Slots, n: nat, t: int)
    requires WellFormed(how.hash, how.cap, shards) && n <= SHARD_COUNT && how.offline == how.now - t
    requires forall i :: 0 <= i < SHARD_COUNT ==> AllSaveable(w, shards[i])
    ensures LoadedUpTo(how.All(EmptySlots(), ReloadedAll(Values(Listing(shards[..n])), t, how.now)), shards, n, t, how.now)
  {
    if n == 0 {
      assert ReloadedAll(Values(Listing(shards[..0])), t, how.now) == [];
    } else {
      LoadListing(w, how, shards, n - 1, t);
      ReloadedListing(shards, n, t, how.now);
      var a, b := ReloadedAll(Values(Listing(shards[..n - 1])), t, how.now), ReloadedAll(Values(shards[n - 1]), t, how.now);
      FoldConcat(how.Loader(), EmptySlots(), a, b);
      LoadNext(w, how, how.All(EmptySlots(), a), shards, n, t);
    }
  }

  lemma LoadNext(w: Wire, how: Load, loaded: Slots, shards: Slots, n: nat, t: int)
    requires WellFormed(how.hash, how.cap, shards) && 0 < n <= SHARD_COUNT && how.offline == how.now - t
    requires AllSaveable(w, shards[n - 1]) && LoadedUpTo(loaded, shards, n - 1, t, how.now)
    ensures LoadedUpTo(how.All(loaded, ReloadedAll(Values(shards[n - 1]), t, how.now)), shards, n, t, how.now)
  {
    assert ShardOk(how.hash, how.cap, shards[n - 1], n - 1);
    LoadShard(w, how, loaded, n - 1, shards[n - 1], t);
  }

  lemma AllInListing(w: Wire, shards: Slots)
    requires forall i :: 0 <= i < |shards| ==> AllSaveable(w, shards[i])
    ensures AllSaveable(w, Listing(shards))
  {
    if shards != [] {
      AllInListing(w, shards[..|shards| - 1]);
    }
  }

  /** The situation of the round trip: everything saveable, the file saved at `t` and loaded
      into an empty cache of the same shape after the program was down for `now - t`. */
  ghost predicate Restart(w: Wire, how: Load, shards: Slots, t: int) {
    && WellFormed(how.hash, how.cap, shards)
    && t <= how.now && how.offline == how.now - t
    && (forall i :: 0 <= i < SHARD_COUNT ==> AllSaveable(w, shards[i]))
  }

  /** Save and load: every shard comes back with the same entries in reversed recency order. */
  lemma RoundTripShards(w: Wire, how: Load, shards: Slots, t: int)
    requires Restart(w, how, shards, t)
    ensures LoadedUpTo(LoadFile(w, how, EmptySlots(), FileOf(w, shards, t)), shards, SHARD_COUNT, t, how.now)
  {
    var es := Values(Listing(shards));
    AllInListing(w, shards);
    assert AllRepresentable(w, es) by {
      forall i | 0 <= i < |es| ensures Representable(w, es[i]) {
        assert Saveable(w, Listing(shards)[i]);
      }
    }
    HeaderRoundTrip(Total(shards) % 0x1_0000_0000, EmitAll(w, es, t));
    SalvageKeepsWholeEntries(w, es, t, how.now, |EmitAll(w, es, t)|);
    LoadListing(w, how, shards, SHARD_COUNT, t);
    assert shards[..SHARD_COUNT] == shards;
  }

  /** What a restart does to one entry: nothing in flight, and no live deadline later than
      before, none earlier by a second or more when at most a day was left, no dead entry
      revived past the save time; everything else is kept. */
  ghost predicate Survives(before: Entry, after: Entry, t: int) {
    && after == before.(validUntil := after.validUntil, prefetching := false)
    && (before.validUntil > t ==> t <= after.validUntil <= before.validUntil)
    && (t < before.validUntil <= t + MAX_TTL * SECOND ==> before.validUntil - after.validUntil < SECOND)
    && (before.validUntil <= t ==> after.validUntil <= t)
  }

  lemma RestoredLookup(hash: Hasher, cap: nat, s: Shard<CacheKey, Entry>, t: int, now: int, k: CacheKey)
    requires Distinct(s) && t <= now
    ensures Has(RestoredShard(s, t, now), k) <==> Has(s, k)
    ensures Has(s, k) ==> Survives(Get(s, k), Get(RestoredShard(s, t, now), k), t)
  {
    var r := RestoredShard(s, t, now);
    HasMember(s, k);
    HasMember(r, k);
    if Has(s, k) {
      var j := |s| - 1 - Find(s, k);
      assert r[j].key == k;
      assert Distinct(r);
      GetAt(r, j);
      DeadlineBounds(s[Find(s, k)].value.validUntil, t, now);
    }
    if Has(r, k) {
      assert s[|s| - 1 - Find(r, k)].key == k;
    }
  }

  /** Save and load, as a map: the same keys with the same messages and popularity. */
  lemma RoundTripMap(w: Wire, how: Load, shards: Slots, t: int, k: CacheKey)
    requires Restart(w, how, shards, t)
    ensures var out := LoadFile(w, how, EmptySlots(), FileOf(w, shards, t));
            |out| == SHARD_COUNT &&
            var before, after := Lookup(how.hash, shards, k), Lookup(how.hash, out, k);
            (before.Some? <==> after.Some?) && (before.Some? ==> Survives(before.value, after.value, t))
  {
    RoundTripShards(w, how, shards, t);
    var i := ShardOf(how.hash, k);
    assert ShardOk(how.hash, how.cap, shards[i], i);
    RestoredLookup(how.hash, how.cap, shards[i], t, how.now, k);
  }

  // ---------------------------------------------------------------- other files

  /** A file that declares another version changes nothing, whatever follows. */
  lemma OtherVersionIgnored(w: Wire, how: Load, shards: Slots, file: Bytes)
    requires |file| >= HEADER_LEN && file[..8] == MAGIC && file[8] as int + file[9] as int * 256 != FORMAT_VERSION
    ensures LoadFile(w, how, shards, file) == shards
  {
  }

  /** A file of the time before headers, entries from its first byte on, is loaded entry by
      entry on top of what the cache holds. */
  lemma OldFormatLoaded(w: Wire, how: Load, shards: Slots, es: seq<Entry>, t: int)
    requires AllRepresentable(w, es)
    requires |EmitAll(w, es, t)| >= HEADER_LEN ==> EmitAll(w, es, t)[..8] != MAGIC
    ensures LoadFile(w, how, shards, EmitAll(w, es, t)) == how.All(shards, ReloadedAll(es, t, how.now))
  {
    SalvageKeepsWholeEntries(w, es, t, how.now, |EmitAll(w, es, t)|);
  }

  /** A file cut short behind its header still loads, in order and before anything else, every
      entry that lies wholly before the cut. */
  lemma CutFileLoaded(w: Wire, how: Load, shards: Slots, es: seq<Entry>, t: int, count: nat, n: nat)
    requires AllRepresentable(w, es) && n <= |EmitAll(w, es, t)| && count < 0x1_0000_0000
    ensures var whole := ReloadedAll(es, t, how.now)[..WholeWithin(Chunks(w, es, t), n)];
            exists rest :: LoadFile(w, how, shards, Header(count) + EmitAll(w, es, t)[..n]) == how.All(how.All(shards, whole), rest)
  {
    var whole := ReloadedAll(es, t, how.now)[..WholeWithin(Chunks(w, es, t), n)];
    var payload := EmitAll(w, es, t)[..n];
    var got := Salvage(ReadEntry(w, how.now), payload).0;
    hide *;
    SalvageKeepsWholeEntries(w, es, t, how.now, n);
    PayloadLoaded(w, how, shards, count, payload);
    AllConcat(how, shards, whole, got);
    assert how.All(how.All(shards, whole), got[|whole|..]) == how.All(shards, got);
  }

  lemma PayloadLoaded(w: Wire, how: Load, shards: Slots, count: nat, payload: Bytes)
    requires count < 0x1_0000_0000
    ensures LoadFile(w, how, shards, Header(count) + payload) == how.All(shards, Salvage(ReadEntry(w, how.now), payload).0)
  {
    HeaderRoundTrip(count, payload);
  }

  lemma AllConcat(how: Load, shards: Slots, front: seq<Entry>, all: seq<Entry>)
    requires front <= all
    ensures how.All(shards, all) == how.All(how.All(shards, front), all[|front|..])
  {
    assert all == front + all[|front|..];
    FoldConcat(how.Loader(), shards, front, all[|front|..]);
  }

  /** Loading one entry: its key then holds it, with the deadline moved back by the downtime,
      unless only missing keys are wanted and the key is there. */
  lemma LoadedEntry(how: Load, shards: Slots, e: Entry)
    requires WellFormed(how.hash, how.cap, shards)
    ensures var k := CacheKey(e.data.query, if e.group.Some? then e.group.value else "default", e.ecs, e.opts);
            var before := Lookup(how.hash, shards, k);
            if how.onlyMissing && before.Some? then how.One(shards, e) == shards
            else Lookup(how.hash, how.One(shards, e), k) == Some(e.(validUntil := e.validUntil - how.offline))
  {
    var k := KeyOf(e);
    var i := ShardOf(how.hash, k);
    assert ShardOk(how.hash, how.cap, shards[i], i);
    PutLaws(shards[i], how.cap, k, e.(validUntil := Shifted(e.validUntil, how.now, how.offline)));
  }
}
