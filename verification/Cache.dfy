/** The answer cache (src/dns_mw_cache.rs): 64 LRU shards addressed by a hash of the key.
    Instants are integers in nanoseconds.  Every method body is one critical section, or a
    loop of them over the shards; what each does to a shard is a function on recency lists. */
module Cache {
  import opened Dns
  import opened Lru

  const SHARD_COUNT: nat := 64
  const MAX_TTL: nat := 86400
  const SECOND: nat := 1_000_000_000

  datatype CacheKey = CacheKey(query: Query, group: string, ecs: Option<string>, opts: nat)

  datatype Entry = Entry(
    data: Response,
    group: Option<string>,
    validUntil: int,
    prefetching: bool,
    hits: nat,
    ecs: Option<string>,
    opts: nat)

  datatype Status = Fresh | Expired

  type Slots = seq<Shard<CacheKey, Entry>>
  type Hasher = CacheKey -> nat

  // ---------------------------------------------------------------- size

  /** The configured size rounded up to a whole number of entries per shard. */
  function EffectiveCacheSize(configured: nat): (n: nat)
    ensures n % SHARD_COUNT == 0 && n >= SHARD_COUNT
    ensures configured <= n
    ensures configured > 0 ==> n < configured + SHARD_COUNT
  {
    var perShard := (configured + SHARD_COUNT - 1) / SHARD_COUNT;
    (if perShard >= 1 then perShard else 1) * SHARD_COUNT
  }

  // ---------------------------------------------------------------- shape

  function ShardOf(hash: Hasher, k: CacheKey): (i: nat)
    ensures i < SHARD_COUNT
  {
    hash(k) % SHARD_COUNT
  }

  ghost predicate ShardOk(hash: Hasher, cap: nat, s: Shard<CacheKey, Entry>, i: nat) {
    && Distinct(s)
    && |s| <= cap
    && (forall j :: 0 <= j < |s| ==> ShardOf(hash, s[j].key) == i)
  }

  ghost predicate WellFormed(hash: Hasher, cap: nat, shards: Slots) {
    && cap >= 1
    && |shards| == SHARD_COUNT
    && (forall i: nat :: i < SHARD_COUNT ==> ShardOk(hash, cap, shards[i], i))
  }

  /** The cache as one map: where a key can only be in its own shard. */
  function Lookup(hash: Hasher, shards: Slots, k: CacheKey): Option<Entry>
    requires |shards| == SHARD_COUNT
  {
    var s := shards[ShardOf(hash, k)];
    if Has(s, k) then Some(Get(s, k)) else None
  }

  function Total(shards: Slots): nat {
    if shards == [] then 0 else |shards[0]| + Total(shards[1..])
  }

  lemma {:induction false} TotalBound(shards: Slots, cap: nat)
    requires forall i :: 0 <= i < |shards| ==> |shards[i]| <= cap
    ensures Total(shards) <= |shards| * cap
  {
    if shards != [] {
      TotalBound(shards[1..], cap);
      assert |shards| * cap == cap + (|shards| - 1) * cap;
    }
  }

  /** A key is found in its own shard or nowhere. */
  lemma OnlyInItsShard(hash: Hasher, cap: nat, shards: Slots, i: nat, k: CacheKey)
    requires WellFormed(hash, cap, shards) && i < SHARD_COUNT
    requires Has(shards[i], k)
    ensures i == ShardOf(hash, k)
  {
    assert ShardOk(hash, cap, shards[i], i);
    assert shards[i][Find(shards[i], k)].key == k;
  }

  // ---------------------------------------------------------------- what is stored

  /** How long a response may be kept, in seconds. */
  function StoredTtl(r: Response): (ttl: nat)
    ensures ttl <= MAX_TTL
    ensures forall i :: 0 <= i < |r.answers| ==> ttl <= r.answers[i].ttl
    ensures r.answers == [] && FirstSoa(r.authorities).Some? ==>
              var soa := FirstSoa(r.authorities).value;
              && ttl <= soa.ttl && (soa.data.SoaData? ==> ttl <= soa.data.minimum)
              && (ttl == MAX_TTL || ttl == soa.ttl || (soa.data.SoaData? && ttl == soa.data.minimum))
    ensures r.answers != [] ==> ttl == MAX_TTL || exists i :: 0 <= i < |r.answers| && ttl == r.answers[i].ttl
    ensures r.answers == [] && FirstSoa(r.authorities).None? ==> ttl == 5
  {
    if r.answers != [] then Min(MAX_TTL, MinTtl(r.answers))
    else
      match FirstSoa(r.authorities)
      case Some(soa) =>
        Min(MAX_TTL, if soa.data.SoaData? then Min(soa.ttl, soa.data.minimum) else soa.ttl)
      case None => 5
  }

  function Min(a: nat, b: nat): nat {
    if a <= b then a else b
  }

  predicate IsCurrent(e: Entry, now: int) {
    now <= e.validUntil
  }

  /** Remaining lifetime as the client sees it: whole seconds, rounded up, cut to 32 bits. */
  function SecondsLeft(e: Entry, now: int): (left: nat)
    requires IsCurrent(e, now)
    ensures e.validUntil - now < 0x1_0000_0000 * SECOND ==>
              (left - 1) * SECOND < e.validUntil - now <= left * SECOND
  {
    var d := e.validUntil - now;
    (d / SECOND) % 0x1_0000_0000 + (if d % SECOND > 0 then 1 else 0)
  }

  function Hit(e: Entry): Entry {
    e.(hits := e.hits + 1)
  }

  function Marked(e: Entry): Entry {
    e.(prefetching := true)
  }

  function Unmarked(e: Entry): Entry {
    e.(prefetching := false)
  }

  function Extended(until: int): Entry -> Entry {
    (e: Entry) => if e.validUntil < until then e.(validUntil := until) else e
  }

  function Stored(r: Response): Response {
    SetNewTtl(r, StoredTtl(r))
  }

  function Deadline(r: Response, now: int): int {
    now + StoredTtl(r) * SECOND
  }

  /** What a write leaves under a key: an existing entry keeps its popularity, except that a
      background refresh sets it to one. */
  function Rewritten(k: CacheKey, r: Response, now: int, fromPrefetch: bool): Entry -> Entry {
    (e: Entry) => e.(data := Stored(r), group := Some(k.group), validUntil := Deadline(r, now), prefetching := false,
    hits := if fromPrefetch then 1 else e.hits)
  }

  function NewEntry(k: CacheKey, r: Response, now: int): Entry {
    Entry(Stored(r), Some(k.group), Deadline(r, now), false, 0, k.ecs, k.opts)
  }

  function InsertInto(s: Shard<CacheKey, Entry>, cap: nat, k: CacheKey, r: Response, now: int, fromPrefetch: bool): Shard<CacheKey, Entry> {
    if Has(s, k) then Update(s, k, Rewritten(k, r, now, fromPrefetch))
    else Put(s, cap, k, NewEntry(k, r, now))
  }

  // ---------------------------------------------------------------- background selection

  datatype Policy = Policy(serveExpired: bool, expiredTtl: nat, prefetchTime: nat)

  /** Should the background task refresh this entry now? */
  predicate Eligible(p: Policy, now: int, ahead: nat, it: Item<CacheKey, Entry>) {
    && !it.value.prefetching
    && IsIpAddr(it.key.query.qtype)
    && it.value.hits >= 2
    && (if p.serveExpired then
          && !IsCurrent(it.value, now)
          && (p.prefetchTime > 0 ==> (now - it.value.validUntil) / SECOND >= p.prefetchTime)
        else
          !IsCurrent(it.value, now + ahead * SECOND))
  }

  /** Selection marks the entry and takes one from its popularity. */
  function Select(p: Policy, now: int, ahead: nat, it: Item<CacheKey, Entry>): Item<CacheKey, Entry> {
    if Eligible(p, now, ahead, it)
    then it.(value := it.value.(prefetching := true, hits := it.value.hits - 1))
    else it
  }

  function SelectAll(p: Policy, now: int, ahead: nat, s: Shard<CacheKey, Entry>): (t: Shard<CacheKey, Entry>)
    ensures |t| == |s| && forall i :: 0 <= i < |s| ==> t[i] == Select(p, now, ahead, s[i])
  {
    seq(|s|, i requires 0 <= i < |s| => Select(p, now, ahead, s[i]))
  }

  /** The selected keys of a shard with the popularity they were selected at. */
  function Selected(p: Policy, now: int, ahead: nat, s: Shard<CacheKey, Entry>): seq<(CacheKey, nat)> {
    if s == [] then []
    else (if Eligible(p, now, ahead, s[0]) then [(s[0].key, s[0].value.hits)] else []) + Selected(p, now, ahead, s[1..])
  }

  /** The sweep leaves the entry for later because it is still current. */
  predicate Waits(p: Policy, now: int, ahead: nat, it: Item<CacheKey, Entry>) {
    && !it.value.prefetching
    && IsIpAddr(it.key.query.qtype)
    && IsCurrent(it.value, if p.serveExpired then now else now + ahead * SECOND)
  }

  /** The time until the first waiting entry of a shard expires, at most `most`. */
  function Soonest(p: Policy, now: int, ahead: nat, s: Shard<CacheKey, Entry>, most: nat): (d: nat)
    ensures d <= most
    ensures forall i :: 0 <= i < |s| && Waits(p, now, ahead, s[i]) ==> d <= s[i].value.validUntil - now
    ensures d == most || exists i :: 0 <= i < |s| && Waits(p, now, ahead, s[i]) && d == s[i].value.validUntil - now
  {
    if s == [] then most
    else
      var d := Soonest(p, now, ahead, s[1..], most);
      assert forall i :: 1 <= i < |s| ==> s[i] == s[1..][i - 1];
      if Waits(p, now, ahead, s[0]) then Min(d, s[0].value.validUntil - now) else d
  }

  /** A popular entry left for later cannot be due before the next sweep exactly when expired
      answers are served, or when the sweep comes earlier than its deadline by the margin: without
      expired answers the sweep waits for the deadline itself, not for the start of the margin. */
  lemma NotDueBeforeWakeExactly(p: Policy, now: int, ahead: nat, it: Item<CacheKey, Entry>, delay: nat)
    requires Waits(p, now, ahead, it) && it.value.hits >= 2 && delay <= it.value.validUntil - now
    ensures (forall t :: now <= t <= now + delay ==> !Eligible(p, t, ahead, it))
            <==> p.serveExpired || delay <= it.value.validUntil - now - ahead * SECOND
  {
    if !p.serveExpired && delay > it.value.validUntil - now - ahead * SECOND {
      assert Eligible(p, now + delay, ahead, it);
    }
  }

  // ---------------------------------------------------------------- collection of dead entries

  predicate Dead(p: Policy, now: int, e: Entry) {
    now > e.validUntil + (if p.serveExpired then p.expiredTtl * SECOND else 0)
  }

  function Survivors(p: Policy, now: int, s: Shard<CacheKey, Entry>): (t: Shard<CacheKey, Entry>)
    ensures |t| <= |s|
    ensures forall it :: it in t <==> it in s && !Dead(p, now, it.value)
  {
    if s == [] then []
    else (if Dead(p, now, s[0].value) then [] else [s[0]]) + Survivors(p, now, s[1..])
  }

  lemma {:induction false} SurvivorsDistinct(p: Policy, now: int, s: Shard<CacheKey, Entry>)
    requires Distinct(s)
    ensures Distinct(Survivors(p, now, s))
  {
    if s != [] {
      SurvivorsDistinct(p, now, s[1..]);
      var rest := Survivors(p, now, s[1..]);
      forall j | 0 <= j < |rest| ensures rest[j].key != s[0].key {
        assert rest[j] in s[1..];
      }
    }
  }

  lemma SurvivorLookup(p: Policy, now: int, s: Shard<CacheKey, Entry>, k: CacheKey)
    requires Distinct(s)
    ensures Has(Survivors(p, now, s), k) ==> Has(s, k) && Get(Survivors(p, now, s), k) == Get(s, k)
    ensures Has(s, k) && !Dead(p, now, Get(s, k)) ==> Has(Survivors(p, now, s), k)
  {
    var t := Survivors(p, now, s);
    HasMember(t, k);
    if Has(t, k) {
      var it := t[Find(t, k)];
      assert it in s;
      var j :| 0 <= j < |s| && s[j] == it;
      GetAt(s, j);
    }
    if Has(s, k) && !Dead(p, now, Get(s, k)) {
      assert s[Find(s, k)] in t;
    }
  }

  // ---------------------------------------------------------------- every step keeps the shape

  lemma UpdateShardOk(hash: Hasher, cap: nat, s: Shard<CacheKey, Entry>, i: nat, k: CacheKey, f: Entry -> Entry)
    requires ShardOk(hash, cap, s, i)
    ensures ShardOk(hash, cap, Update(s, k, f), i)
  {
    UpdateLaws(s, k, f);
    var t := Update(s, k, f);
    forall j | 0 <= j < |t| ensures ShardOf(hash, t[j].key) == i {
      GetAt(t, j);
      assert s[Find(s, t[j].key)].key == t[j].key;
    }
  }

  lemma PutShardOk(hash: Hasher, cap: nat, s: Shard<CacheKey, Entry>, i: nat, k: CacheKey, e: Entry)
    requires ShardOk(hash, cap, s, i) && cap >= 1 && ShardOf(hash, k) == i
    ensures ShardOk(hash, cap, Put(s, cap, k, e), i)
  {
    PutLaws(s, cap, k, e);
    var t := Put(s, cap, k, e);
    forall j | 0 <= j < |t| ensures ShardOf(hash, t[j].key) == i {
      GetAt(t, j);
      if t[j].key != k {
        assert s[Find(s, t[j].key)].key == t[j].key;
      }
    }
  }

  lemma InsertShardOk(hash: Hasher, cap: nat, s: Shard<CacheKey, Entry>, i: nat, k: CacheKey, r: Response, now: int, fromPrefetch: bool)
    requires ShardOk(hash, cap, s, i) && cap >= 1 && ShardOf(hash, k) == i
    ensures ShardOk(hash, cap, InsertInto(s, cap, k, r, now, fromPrefetch), i)
  {
    if Has(s, k) {
      UpdateShardOk(hash, cap, s, i, k, Rewritten(k, r, now, fromPrefetch));
    } else {
      PutShardOk(hash, cap, s, i, k, NewEntry(k, r, now));
    }
  }

  lemma SurvivorsShardOk(hash: Hasher, cap: nat, p: Policy, now: int, s: Shard<CacheKey, Entry>, i: nat)
    requires ShardOk(hash, cap, s, i)
    ensures ShardOk(hash, cap, Survivors(p, now, s), i)
  {
    SurvivorsDistinct(p, now, s);
    var t := Survivors(p, now, s);
    forall j | 0 <= j < |t| ensures ShardOf(hash, t[j].key) == i {
      assert t[j] in s;
    }
  }

  /** Writing one shard back changes the map only through that shard. */
  lemma WriteBack(hash: Hasher, cap: nat, shards: Slots, i: nat, s: Shard<CacheKey, Entry>)
    requires WellFormed(hash, cap, shards) && i < SHARD_COUNT && ShardOk(hash, cap, s, i)
    ensures WellFormed(hash, cap, shards[i := s])
    ensures forall q :: ShardOf(hash, q) != i ==> Lookup(hash, shards[i := s], q) == Lookup(hash, shards, q)
  {
    var t := shards[i := s];
    forall j: nat | j < SHARD_COUNT ensures ShardOk(hash, cap, t[j], j) {
      assert ShardOk(hash, cap, shards[j], j);
    }
  }
}
