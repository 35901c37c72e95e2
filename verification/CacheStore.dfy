/** The cache object itself: the mutable shards and the methods the middleware calls. */
module CacheStore {
  import opened Dns
  import opened Lru
  import opened Cache

  /** Selected keys, most popular first. */
  ghost predicate ByPopularity(s: seq<(CacheKey, nat)>) {
    forall i, j :: 0 <= i < j < |s| ==> s[i].1 >= s[j].1
  }

  function InsertByHits(s: seq<(CacheKey, nat)>, x: (CacheKey, nat)): (t: seq<(CacheKey, nat)>)
    ensures multiset(t) == multiset(s) + multiset{x}
  {
    if s == [] then [x]
    else if x.1 > s[0].1 then [x] + s
    else
      assert s == [s[0]] + s[1..];
      [s[0]] + InsertByHits(s[1..], x)
  }

  lemma AheadKeepsOrder(x: (CacheKey, nat), rest: seq<(CacheKey, nat)>)
    requires ByPopularity(rest) && (rest != [] ==> rest[0].1 <= x.1)
    ensures ByPopularity([x] + rest)
  {
    var t := [x] + rest;
    forall i, j | 0 <= i < j < |t| ensures t[i].1 >= t[j].1 {
      assert t[j] == rest[j - 1];
    }
  }

  lemma {:induction false} InsertKeepsOrder(s: seq<(CacheKey, nat)>, x: (CacheKey, nat))
    requires ByPopularity(s)
    ensures InsertByHits(s, x) != [] && ByPopularity(InsertByHits(s, x))
    ensures InsertByHits(s, x)[0] == x || (s != [] && InsertByHits(s, x)[0] == s[0])
  {
    if s != [] && x.1 <= s[0].1 {
      InsertKeepsOrder(s[1..], x);
      AheadKeepsOrder(s[0], InsertByHits(s[1..], x));
    } else {
      AheadKeepsOrder(x, s);
    }
  }

  function SortByHits(s: seq<(CacheKey, nat)>): (t: seq<(CacheKey, nat)>)
    ensures multiset(t) == multiset(s)
    ensures ByPopularity(t)
  {
    if s == [] then []
    else
      assert s == s[..|s| - 1] + [s[|s| - 1]];
      var sorted := SortByHits(s[..|s| - 1]);
      InsertKeepsOrder(sorted, s[|s| - 1]);
      InsertByHits(sorted, s[|s| - 1])
  }

  /** The selections of a whole sweep, shard after shard. */
  function Swept(p: Policy, now: int, ahead: nat, shards: Slots): seq<(CacheKey, nat)> {
    if shards == [] then []
    else Swept(p, now, ahead, shards[..|shards| - 1]) + Selected(p, now, ahead, shards[|shards| - 1])
  }

  /** All entries in the order an administrator pages through them. */
  function Listing(shards: Slots): seq<Item<CacheKey, Entry>> {
    if shards == [] then [] else Listing(shards[..|shards| - 1]) + shards[|shards| - 1]
  }

  lemma {:induction false} ListingLength(shards: Slots)
    ensures |Listing(shards)| == Total(shards)
  {
    if shards != [] {
      ListingLength(shards[..|shards| - 1]);
      TotalSnoc(shards[..|shards| - 1], shards[|shards| - 1]);
      assert shards == shards[..|shards| - 1] + [shards[|shards| - 1]];
    }
  }

  lemma {:induction false} TotalSnoc(shards: Slots, s: Shard<CacheKey, Entry>)
    ensures Total(shards + [s]) == Total(shards) + |s|
  {
    if shards == [] {
      assert shards + [s] == [s];
    } else {
      TotalSnoc(shards[1..], s);
      assert (shards + [s])[1..] == shards[1..] + [s];
    }
  }

  lemma {:induction false} TotalUpdate(shards: Slots, i: nat, s: Shard<CacheKey, Entry>)
    requires i < |shards|
    ensures Total(shards[i := s]) + |shards[i]| == Total(shards) + |s|
  {
    if i == 0 {
      assert shards[i := s][1..] == shards[1..];
    } else {
      TotalUpdate(shards[1..], i - 1, s);
      assert shards[i := s][1..] == shards[1..][i - 1 := s];
    }
  }

  lemma PurgedLookup(hash: Hasher, cap: nat, p: Policy, now: int, before: Slots, after: Slots, q: CacheKey)
    requires WellFormed(hash, cap, before) && |after| == SHARD_COUNT
    requires forall i :: 0 <= i < SHARD_COUNT ==> after[i] == Survivors(p, now, before[i])
    ensures Lookup(hash, after, q) ==
            (var e := Lookup(hash, before, q);
             if e.Some? && now > e.value.validUntil + (if p.serveExpired then p.expiredTtl * SECOND else 0)
             then None else e)
  {
    var i := ShardOf(hash, q);
    assert ShardOk(hash, cap, before[i], i);
    SurvivorLookup(p, now, before[i], q);
  }

  /** An unmarked address entry that is current, by the margin when nothing expired is served. */
  predicate LeftForLater(p: Policy, now: int, ahead: nat, it: Item<CacheKey, Entry>) {
    && !it.value.prefetching && (it.key.query.qtype == A || it.key.query.qtype == AAAA)
    && now + (if p.serveExpired then 0 else ahead * SECOND) <= it.value.validUntil
  }

  /** The least remaining lifetime of the waiting entries, and a day when none waits. */
  ghost predicate IsSoonest(p: Policy, now: int, ahead: nat, shards: Slots, delay: nat) {
    && delay <= MAX_TTL * SECOND
    && (forall s, it :: s in shards && it in s && LeftForLater(p, now, ahead, it) ==> delay <= it.value.validUntil - now)
    && (delay == MAX_TTL * SECOND
        || exists s, it :: s in shards && it in s && LeftForLater(p, now, ahead, it) && delay == it.value.validUntil - now)
  }

  lemma NothingSwept(p: Policy, now: int, ahead: nat, shards: Slots)
    requires shards == []
    ensures IsSoonest(p, now, ahead, shards, MAX_TTL * SECOND) && Swept(p, now, ahead, shards) == []
  {
  }

  lemma SweepNext(p: Policy, now: int, ahead: nat, shards: Slots, s: Shard<CacheKey, Entry>, delay: nat)
    requires IsSoonest(p, now, ahead, shards, delay)
    ensures Swept(p, now, ahead, shards + [s]) == Swept(p, now, ahead, shards) + Selected(p, now, ahead, s)
    ensures IsSoonest(p, now, ahead, shards + [s], Soonest(p, now, ahead, s, delay))
  {
    var d, all := Soonest(p, now, ahead, s, delay), shards + [s];
    assert all[..|shards|] == shards;
    if i :| 0 <= i < |s| && Waits(p, now, ahead, s[i]) && d == s[i].value.validUntil - now {
      assert s in all && s[i] in s;
    } else if delay != MAX_TTL * SECOND {
      var s0, it :| s0 in shards && it in s0 && Waits(p, now, ahead, it) && delay == it.value.validUntil - now;
      assert s0 in all;
    }
  }

  class DnsCache {
    var shards: Slots
    var policy: Policy
    const hash: Hasher
    const cap: nat

    ghost predicate Valid()
      reads this
    {
      WellFormed(hash, cap, shards)
    }

    constructor (configured: nat, policy: Policy, hash: Hasher)
      ensures Valid() && this.policy == policy && this.hash == hash
      ensures cap * SHARD_COUNT == EffectiveCacheSize(configured)
      ensures forall k :: Lookup(hash, shards, k) == None
    {
      this.policy, this.hash := policy, hash;
      cap := EffectiveCacheSize(configured) / SHARD_COUNT;
      shards := seq(SHARD_COUNT, _ => []);
    }

    /** The number of entries never exceeds the effective size. */
    method TotalLen() returns (n: nat)
      requires Valid()
      ensures n == Total(shards) && n <= cap * SHARD_COUNT
    {
      n := 0;
      for i := 0 to |shards|
        invariant n == Total(shards[..i])
      {
        TotalSnoc(shards[..i], shards[i]);
        assert shards[..i + 1] == shards[..i] + [shards[i]];
        n := n + |shards[i]|;
      }
      assert shards[..|shards|] == shards;
      forall i | 0 <= i < |shards| ensures |shards[i]| <= cap {
        assert ShardOk(hash, cap, shards[i], i);
      }
      TotalBound(shards, cap);
    }

    /** One write-locked access to an entry. */
    method Touch(k: CacheKey, f: Entry -> Entry)
      requires Valid()
      modifies this`shards
      ensures Valid()
      ensures shards == old(shards)[ShardOf(hash, k) := Update(old(shards)[ShardOf(hash, k)], k, f)]
      ensures forall q :: Lookup(hash, shards, q) ==
                          (var e := Lookup(hash, old(shards), q); if q == k && e.Some? then Some(f(e.value)) else e)
    {
      var i := ShardOf(hash, k);
      assert ShardOk(hash, cap, shards[i], i);
      UpdateShardOk(hash, cap, shards[i], i, k, f);
      WriteBack(hash, cap, shards, i, Update(shards[i], k, f));
      UpdateLaws(shards[i], k, f);
      shards := shards[i := Update(shards[i], k, f)];
    }

    /** A client lookup: counts as a hit, even on an expired entry. */
    method Get(k: CacheKey, now: int) returns (r: Option<(Response, Status)>)
      requires Valid()
      modifies this`shards
      ensures Valid()
      ensures shards == old(shards)[ShardOf(hash, k) := Update(old(shards)[ShardOf(hash, k)], k, Hit)]
      ensures r.None? <==> Lookup(hash, old(shards), k).None?
      ensures r.Some? ==>
                var e := Lookup(hash, old(shards), k).value;
                if IsCurrent(e, now) then r.value == (SetNewTtl(e.data, SecondsLeft(e, now)), Fresh)
                else r.value == (e.data, Expired)
      ensures forall q :: Lookup(hash, shards, q) ==
                          (var e := Lookup(hash, old(shards), q); if q == k && e.Some? then Some(e.value.(hits := e.value.hits + 1)) else e)
    {
      var e := Lookup(hash, shards, k);
      Touch(k, Hit);
      if e.None? {
        return None;
      }
      if IsCurrent(e.value, now) {
        return Some((SetNewTtl(e.value.data, SecondsLeft(e.value, now)), Fresh));
      }
      return Some((e.value.data, Expired));
    }

    /** Claim the right to refresh a key.  An absent key can always be claimed. */
    method MarkPrefetching(k: CacheKey) returns (claimed: bool)
      requires Valid()
      modifies this`shards
      ensures Valid()
      ensures claimed <==> (Lookup(hash, old(shards), k).Some? ==> !Lookup(hash, old(shards), k).value.prefetching)
      ensures shards == old(shards)[ShardOf(hash, k) := Update(old(shards)[ShardOf(hash, k)], k, Marked)]
      ensures forall q :: Lookup(hash, shards, q) ==
                          (var e := Lookup(hash, old(shards), q); if q == k && e.Some? then Some(e.value.(prefetching := true)) else e)
    {
      var e := Lookup(hash, shards, k);
      claimed := !(e.Some? && e.value.prefetching);
      Touch(k, Marked);
    }

    method SetValidUntilForPrefetch(k: CacheKey, until: int)
      requires Valid()
      modifies this`shards
      ensures Valid()
      ensures shards == old(shards)[ShardOf(hash, k) := Update(old(shards)[ShardOf(hash, k)], k, Extended(until))]
      ensures forall q :: Lookup(hash, shards, q) ==
                          (var e := Lookup(hash, old(shards), q);
                           if q == k && e.Some? && e.value.validUntil < until then Some(e.value.(validUntil := until)) else e)
    {
      Touch(k, Extended(until));
    }

    /** A refresh guard goes away. */
    method DropGuard(k: CacheKey)
      requires Valid()
      modifies this`shards
      ensures Valid()
      ensures shards == old(shards)[ShardOf(hash, k) := Update(old(shards)[ShardOf(hash, k)], k, Unmarked)]
      ensures forall q :: Lookup(hash, shards, q) ==
                          (var e := Lookup(hash, old(shards), q); if q == k && e.Some? then Some(e.value.(prefetching := false)) else e)
    {
      Touch(k, Unmarked);
    }

    /** Store a response.  It is readable at once, and the only entry that can disappear is
        the least recently used one of the same shard, when that shard was full. */
    method InsertFullResponse(k: CacheKey, r: Response, now: int, fromPrefetch: bool) returns (stored: Response)
      requires Valid()
      modifies this`shards
      ensures Valid()
      ensures stored == SetNewTtl(r, StoredTtl(r))
      ensures shards == old(shards)[ShardOf(hash, k) := InsertInto(old(shards)[ShardOf(hash, k)], cap, k, r, now, fromPrefetch)]
      ensures Lookup(hash, shards, k).Some?
      ensures var e := Lookup(hash, shards, k).value;
              && e.data == stored && e.validUntil == now + StoredTtl(r) * SECOND && !e.prefetching
              && IsCurrent(e, now)
              && e.hits == (var was := Lookup(hash, old(shards), k);
                            if was.None? then 0 else if fromPrefetch then 1 else was.value.hits)
              && e.group == Some(k.group)
              && (Lookup(hash, old(shards), k).None? ==> e.ecs == k.ecs && e.opts == k.opts)
      ensures forall q :: q != k && Lookup(hash, shards, q) != Lookup(hash, old(shards), q) ==>
                && Lookup(hash, shards, q).None?
                && Lookup(hash, old(shards), k).None?
                && |old(shards)[ShardOf(hash, k)]| == cap
                && q == old(shards)[ShardOf(hash, k)][cap - 1].key
    {
      var i := ShardOf(hash, k);
      assert ShardOk(hash, cap, shards[i], i);
      InsertShardOk(hash, cap, shards[i], i, k, r, now, fromPrefetch);
      WriteBack(hash, cap, shards, i, InsertInto(shards[i], cap, k, r, now, fromPrefetch));
      if Has(shards[i], k) {
        UpdateLaws(shards[i], k, Rewritten(k, r, now, fromPrefetch));
      } else {
        PutLaws(shards[i], cap, k, NewEntry(k, r, now));
      }
      shards := shards[i := InsertInto(shards[i], cap, k, r, now, fromPrefetch)];
      stored := Stored(r);
    }

    /** The background sweep: marks every eligible entry of every shard and returns their
        keys, most popular first, with the time until the first waiting entry expires. */
    method GetExpired(now: int, ahead: nat) returns (keys: seq<(CacheKey, nat)>, delay: nat)
      requires Valid()
      modifies this`shards
      ensures Valid()
      ensures forall i :: 0 <= i < SHARD_COUNT ==> shards[i] == SelectAll(policy, now, ahead, old(shards)[i])
      ensures multiset(keys) == multiset(Swept(policy, now, ahead, old(shards)))
      ensures ByPopularity(keys)
      ensures IsSoonest(policy, now, ahead, old(shards), delay)
    {
      hide IsSoonest, Soonest, Waits, Selected, Swept, SelectAll;
      var found: seq<(CacheKey, nat)> := [];
      delay := MAX_TTL * SECOND;
      NothingSwept(policy, now, ahead, old(shards)[..0]);
      for i := 0 to SHARD_COUNT
        invariant WellFormed(hash, cap, shards)
        invariant forall j :: 0 <= j < i ==> shards[j] == SelectAll(policy, now, ahead, old(shards)[j])
        invariant forall j :: i <= j < SHARD_COUNT ==> shards[j] == old(shards)[j]
        invariant found == Swept(policy, now, ahead, old(shards)[..i])
        invariant IsSoonest(policy, now, ahead, old(shards)[..i], delay)
      {
        assert old(shards)[..i + 1][..i] == old(shards)[..i];
        SweepNext(policy, now, ahead, old(shards)[..i], old(shards)[i], delay);
        assert old(shards)[..i + 1] == old(shards)[..i] + [old(shards)[i]];
        var picked;
        picked, delay := SelectShard(i, now, ahead, delay);
        found := found + picked;
      }
      assert old(shards)[..SHARD_COUNT] == old(shards);
      keys := SortByHits(found);
    }

    /** One shard's critical section of the sweep. */
    method SelectShard(i: nat, now: int, ahead: nat, most: nat) returns (picked: seq<(CacheKey, nat)>, soonest: nat)
      requires Valid() && i < SHARD_COUNT
      modifies this`shards
      ensures Valid()
      ensures shards == old(shards)[i := SelectAll(policy, now, ahead, old(shards)[i])]
      ensures picked == Selected(policy, now, ahead, old(shards)[i])
      ensures soonest == Soonest(policy, now, ahead, old(shards)[i], most)
    {
      assert ShardOk(hash, cap, shards[i], i);
      var s := SelectAll(policy, now, ahead, shards[i]);
      WriteBack(hash, cap, shards, i, s);
      picked := Selected(policy, now, ahead, shards[i]);
      soonest := Soonest(policy, now, ahead, shards[i], most);
      shards := shards[i := s];
    }

    /** Garbage collection: drops exactly the entries that are dead and counts them. */
    method PurgeDeadRecords(now: int) returns (count: nat)
      requires Valid()
      modifies this`shards
      ensures Valid()
      ensures forall i :: 0 <= i < SHARD_COUNT ==> shards[i] == Survivors(policy, now, old(shards)[i])
      ensures count + Total(shards) == Total(old(shards))
      ensures forall q :: Lookup(hash, shards, q) ==
                          (var e := Lookup(hash, old(shards), q);
                           if e.Some? && now > e.value.validUntil + (if policy.serveExpired then policy.expiredTtl * SECOND else 0)
                           then None else e)
    {
      count := 0;
      for i := 0 to SHARD_COUNT
        invariant WellFormed(hash, cap, shards)
        invariant forall j :: 0 <= j < i ==> shards[j] == Survivors(policy, now, old(shards)[j])
        invariant forall j :: i <= j < SHARD_COUNT ==> shards[j] == old(shards)[j]
        invariant count + Total(shards) == Total(old(shards))
      {
        var dropped := PurgeShard(i, now);
        count := count + dropped;
      }
      forall q
        ensures Lookup(hash, shards, q) ==
                (var e := Lookup(hash, old(shards), q);
                 if e.Some? && now > e.value.validUntil + (if policy.serveExpired then policy.expiredTtl * SECOND else 0)
                 then None else e)
      {
        PurgedLookup(hash, cap, policy, now, old(shards), shards, q);
      }
    }

    /** One shard's critical section. */
    method PurgeShard(i: nat, now: int) returns (dropped: nat)
      requires Valid() && i < SHARD_COUNT
      modifies this`shards
      ensures Valid()
      ensures shards == old(shards)[i := Survivors(policy, now, old(shards)[i])]
      ensures dropped + Total(shards) == Total(old(shards))
    {
      var s := Survivors(policy, now, shards[i]);
      assert ShardOk(hash, cap, shards[i], i);
      SurvivorsShardOk(hash, cap, policy, now, shards[i], i);
      WriteBack(hash, cap, shards, i, s);
      TotalUpdate(shards, i, s);
      dropped := |shards[i]| - |s|;
      shards := shards[i := s];
    }

    /** Drop everything, shard by shard. */
    method Clear()
      requires Valid()
      modifies this`shards
      ensures Valid() && forall k :: Lookup(hash, shards, k) == None
    {
      for i := 0 to SHARD_COUNT
        invariant WellFormed(hash, cap, shards)
        invariant forall j :: 0 <= j < i ==> shards[j] == []
      {
        ClearShard(i);
      }
    }

    method ClearShard(i: nat)
      requires Valid() && i < SHARD_COUNT
      modifies this`shards
      ensures Valid() && shards == old(shards)[i := []]
    {
      WriteBack(hash, cap, shards, i, []);
      shards := shards[i := []];
    }

    /** One page of the listing.  `visited` counts the entries the second pass looked at. */
    method CachedRecordsPaginated(offset: nat, limit: nat)
      returns (total: nat, page: seq<Item<CacheKey, Entry>>, visited: nat)
      requires Valid()
      ensures total == Total(shards) == |Listing(shards)|
      ensures page == Listing(shards)[Min(offset, total)..Min(offset + limit, total)]
      ensures visited <= offset + limit + 1
      ensures offset >= total || limit == 0 ==> visited == 0
    {
      total := TotalLen();
      ListingLength(shards);
      page, visited := [], 0;
      if offset >= total || limit == 0 {
        return;
      }
      var done := false;
      var i := 0;
      while i < |shards| && !done
        invariant i <= |shards|
        invariant !done ==> visited == |Listing(shards[..i])| <= offset + limit
        invariant !done ==> Collected(Listing(shards), offset, limit, visited, page)
        invariant done ==> visited == offset + limit + 1 <= total && page == Listing(shards)[offset..offset + limit]
      {
        PrefixOfListing(shards, i);
        page, visited, done := VisitShard(shards[i], Listing(shards), offset, limit, page, visited);
        i := i + 1;
      }
      if !done {
        assert shards[..i] == shards;
      }
    }

    /** The second pass within one shard; `list` is the whole listing. */
    method VisitShard(s: Shard<CacheKey, Entry>, ghost list: seq<Item<CacheKey, Entry>>, offset: nat, limit: nat,
                      page0: seq<Item<CacheKey, Entry>>, visited0: nat)
      returns (page: seq<Item<CacheKey, Entry>>, visited: nat, done: bool)
      requires visited0 + |s| <= |list| && list[visited0..][..|s|] == s
      requires visited0 <= offset + limit && Collected(list, offset, limit, visited0, page0)
      ensures !done ==> visited == visited0 + |s| <= offset + limit && Collected(list, offset, limit, visited, page)
      ensures done ==> visited == offset + limit + 1 <= |list| && page == list[offset..offset + limit]
    {
      page, visited, done := page0, visited0, false;
      var j := 0;
      while j < |s| && !done
        invariant j <= |s|
        invariant !done ==> visited == visited0 + j <= offset + limit && Collected(list, offset, limit, visited, page)
        invariant done ==> visited == offset + limit + 1 <= |list| && page == list[offset..offset + limit]
      {
        assert s[j] == list[visited0..][j];
        CollectOne(list, offset, limit, visited, page);
        visited := visited + 1;
        if visited <= offset {
        } else if |page| >= limit {
          done := true;
        } else {
          page := page + [s[j]];
        }
        j := j + 1;
      }
    }
  }

  lemma CollectOne(list: seq<Item<CacheKey, Entry>>, offset: nat, limit: nat, visited: nat, page: seq<Item<CacheKey, Entry>>)
    requires Collected(list, offset, limit, visited, page) && visited < |list|
    ensures visited < offset ==> Collected(list, offset, limit, visited + 1, page)
    ensures visited >= offset && |page| < limit ==> Collected(list, offset, limit, visited + 1, page + [list[visited]])
    ensures visited >= offset && |page| >= limit ==> visited == offset + limit && page == list[offset..offset + limit]
  {
    if visited >= offset {
      assert list[offset..visited + 1] == list[offset..visited] + [list[visited]];
    }
  }

  /** What the page holds after the first `visited` entries of the listing. */
  ghost predicate Collected(list: seq<Item<CacheKey, Entry>>, offset: nat, limit: nat, visited: nat, page: seq<Item<CacheKey, Entry>>) {
    visited <= |list| && visited <= offset + limit
    && page == if visited <= offset then [] else list[offset..visited]
  }

  /** Where shard `i` lies in the listing. */
  lemma {:induction false} PrefixOfListing(shards: Slots, i: nat)
    requires i < |shards|
    ensures |Listing(shards[..i])| + |shards[i]| == |Listing(shards[..i + 1])| <= |Listing(shards)|
    ensures Listing(shards)[|Listing(shards[..i])|..][..|shards[i]|] == shards[i]
  {
    ListingPrefix(shards, i + 1);
    assert shards[..i + 1][..i] == shards[..i];
  }

  lemma {:induction false} ListingPrefix(shards: Slots, i: nat)
    requires i <= |shards|
    ensures Listing(shards[..i]) <= Listing(shards)
    decreases |shards|
  {
    if i == |shards| {
      assert shards[..i] == shards;
    } else {
      ListingPrefix(shards[..|shards| - 1], i);
      assert shards[..|shards| - 1][..i] == shards[..i];
    }
  }

  function Page(list: seq<Item<CacheKey, Entry>>, offset: nat, limit: nat): seq<Item<CacheKey, Entry>> {
    list[Min(offset, |list|)..Min(offset + limit, |list|)]
  }

  /** The pages an administrator gets by advancing the offset until a page comes back empty. */
  function AllPages(list: seq<Item<CacheKey, Entry>>, offset: nat, limit: nat): seq<Item<CacheKey, Entry>>
    requires limit > 0
    decreases |list| - offset
  {
    if Page(list, offset, limit) == [] then []
    else Page(list, offset, limit) + AllPages(list, offset + limit, limit)
  }

  /** Successive pages partition the listing: every entry once, none twice, none missing. */
  lemma {:induction false} PagesPartition(list: seq<Item<CacheKey, Entry>>, offset: nat, limit: nat)
    requires limit > 0
    ensures AllPages(list, offset, limit) == list[Min(offset, |list|)..]
    decreases |list| - offset
  {
    if Page(list, offset, limit) != [] {
      PagesPartition(list, offset + limit, limit);
    }
  }
}
