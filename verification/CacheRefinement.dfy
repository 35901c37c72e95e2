/** The cache object performs the steps of the concurrent model: every critical section of
    the implementation is the corresponding step, so what is proved of all runs holds of it. */
module CacheRefinement {
  import opened Dns
  import opened Cache
  import opened CacheStore
  import opened CachePersist
  import R = CacheRuns

  /** A step as the object can take it: sweeps and collections use its own policy, and a load
      is one entry of a file. */
  predicate Possible(cache: DnsCache, step: R.Step)
    reads cache`policy
  {
    match step
    case Sweep(i, p, _, _) => i < SHARD_COUNT && p == cache.policy
    case Collect(i, p, _) => i < SHARD_COUNT && p == cache.policy
    case Clear(i) => i < SHARD_COUNT
    case Load(k, e, _) => k == KeyOf(e) && !e.prefetching
    case _ => true
  }

  ghost function ConfigOf(cache: DnsCache): R.Config {
    R.Config(cache.hash, cache.cap)
  }

  /** Take one step on the object.  `held` tells, for a claim, whether it succeeded: exactly
      then the model gains a guard. */
  method Perform(cache: DnsCache, step: R.Step, at: int, ghost w: R.World) returns (held: bool)
    requires cache.Valid() && w.shards == cache.shards && |w.shards| == SHARD_COUNT && Possible(cache, step)
    modifies cache`shards
    ensures cache.Valid() && cache.shards == R.Next(ConfigOf(cache), w, step).shards
    ensures step.Claim? ==> (held <==> R.Next(ConfigOf(cache), w, step).guards == w.guards + multiset{step.k})
  {
    held := false;
    match step {
      case ClientLookup(k) =>
        var _ := cache.Get(k, at);
      case Claim(k) =>
        held := cache.MarkPrefetching(k);
        assert w.guards + multiset{k} != w.guards by {
          assert (w.guards + multiset{k})[k] == w.guards[k] + 1;
        }
      case Extend(k, until) => cache.SetValidUntilForPrefetch(k, until);
      case Write(k, r, now, fromPrefetch) =>
        var _ := cache.InsertFullResponse(k, r, now, fromPrefetch);
      case Release(k) => cache.DropGuard(k);
      case Load(k, e, onlyMissing) => LoadEntry(cache, e, e.validUntil - 1, 0, onlyMissing);
      case Sweep(i, p, now, ahead) =>
        var _, _ := cache.SelectShard(i, now, ahead, MAX_TTL * SECOND);
      case Collect(i, p, now) =>
        var _ := cache.PurgeShard(i, now);
      case Clear(i) => cache.ClearShard(i);
    }
  }

  /** The ghost world beside the object after a sequence of steps. */
  method PerformAll(cache: DnsCache, steps: seq<R.Step>, at: int, ghost w: R.World) returns (ghost w': R.World)
    requires cache.Valid() && R.Start(ConfigOf(cache), w) && w.shards == cache.shards
    requires forall i :: 0 <= i < |steps| ==> Possible(cache, steps[i])
    modifies cache`shards
    ensures cache.Valid() && w' == R.Run(ConfigOf(cache), w, steps) && w'.shards == cache.shards
    ensures w'.guards == multiset{} ==>
              forall k :: Lookup(cache.hash, cache.shards, k).Some? ==> !Lookup(cache.hash, cache.shards, k).value.prefetching
    ensures Total(cache.shards) <= SHARD_COUNT * cache.cap
  {
    w' := w;
    for i := 0 to |steps|
      invariant cache.Valid() && |w'.shards| == SHARD_COUNT && w'.shards == cache.shards
      invariant w' == R.Run(ConfigOf(cache), w, steps[..i])
    {
      assert steps[..i + 1][..i] == steps[..i];
      var _ := Perform(cache, steps[i], at, w');
      w' := R.Next(ConfigOf(cache), w', steps[i]);
    }
    assert steps[..|steps|] == steps;
    forall k ensures w'.guards == multiset{} && Lookup(cache.hash, cache.shards, k).Some? ==>
        !Lookup(cache.hash, cache.shards, k).value.prefetching
    {
      R.NoStuckMarker(ConfigOf(cache), w, steps, k);
    }
    R.EvictsLeastRecentlyUsed(ConfigOf(cache), w, steps, CacheKey(Query("", A), "", None, 0), CacheKey(Query("", A), "", None, 0));
  }
}
