/** The cached path of the middleware (src/dns_mw_cache.rs): what a client gets from the cache,
    when stale data may be served, and which refreshes that starts. */
module ServeExpired {
  import opened Dns
  import opened Cache
  import opened CacheStore
  import R = CacheRuns

  /** The key of the other address family. */
  function SiblingKey(k: CacheKey): (s: CacheKey)
    ensures s.query.name == k.query.name && s.group == k.group && s.ecs == k.ecs && s.opts == k.opts
    ensures (k.query.qtype == A ==> s.query.qtype == AAAA) && (k.query.qtype == AAAA ==> s.query.qtype == A)
  {
    k.(query := k.query.(qtype := if k.query.qtype.A? then AAAA else A))
  }

  /** Seconds until an instant, rounded up; none once it has passed. */
  function SecondsUntil(until: int, now: int): nat {
    if until <= now then 0
    else ((until - now) / SECOND) % 0x1_0000_0000 + (if (until - now) % SECOND > 0 then 1 else 0)
  }

  lemma SecondsUntilBound(start: int, secs: nat, now: int)
    requires start <= now
    ensures SecondsUntil(start + secs * SECOND, now) <= secs
  {
    var d := start + secs * SECOND - now;
    if d > 0 {
      assert d <= secs * SECOND;
      assert d / SECOND <= secs;
      if d / SECOND == secs {
        assert d == secs * SECOND;
      }
    }
  }

  /** `secs` is the time `d` in whole seconds, rounded up, and nothing once it is over. */
  predicate RoundedUp(d: int, secs: nat) {
    if d <= 0 then secs == 0
    else d < 0x1_0000_0000 * SECOND ==> (secs - 1) * SECOND < d <= secs * SECOND
  }

  lemma SecondsUntilRoundsUp(until: int, now: int)
    ensures RoundedUp(until - now, SecondsUntil(until, now))
  {
  }

  /** An answer from stale data: the stored reply with short lifetimes, which are what is left
      of the reply limit when this query started the refresh, and the limit otherwise. */
  ghost predicate StaleAnswer(data: Response, replyTtl: nat, left: int, started: bool, r: Response) {
    exists ttl: nat :: ttl <= replyTtl && r == SetNewTtl(data, ttl)
                       && (if started then RoundedUp(left, ttl) else ttl == replyTtl % 0x1_0000_0000)
  }

  /** Nobody refreshes the key: it is not cached, or its entry is not marked. */
  predicate Free(e: Option<Entry>) {
    e.None? || !e.value.prefetching
  }

  /** The refreshes a stale query starts: its key if that is free, and then, for an address,
      also the other family if that is free. */
  function ToRefresh(hash: Hasher, shards: Slots, k: CacheKey): seq<CacheKey>
    requires |shards| == SHARD_COUNT
  {
    if !Free(Lookup(hash, shards, k)) then []
    else if IsIpAddr(k.query.qtype) && Free(Lookup(hash, shards, SiblingKey(k))) then [k] + [SiblingKey(k)]
    else [k]
  }

  /** Key by key: the asked key is refreshed exactly when nobody does, the other family exactly
      when the question is for an address, the asked key is refreshed and nobody refreshes the
      other; each at most once, and nothing else. */
  lemma ToRefreshExactly(hash: Hasher, shards: Slots, k: CacheKey, q: CacheKey)
    requires |shards| == SHARD_COUNT
    ensures var e, sibling := Lookup(hash, shards, q), k.(query := Query(k.query.name, if k.query.qtype == A then AAAA else A));
            var mine := Lookup(hash, shards, k);
            multiset(ToRefresh(hash, shards, k))[q] ==
            if q == k && (e.Some? ==> !e.value.prefetching) then 1
            else if q == sibling && (k.query.qtype == A || k.query.qtype == AAAA)
                    && (mine.Some? ==> !mine.value.prefetching) && (e.Some? ==> !e.value.prefetching) then 1
            else 0
  {
  }

  /** The answer for a foreground query.  `now` is when the cache was asked, `claimed` when
      the new deadline was taken, `sent` when the reply left; `guards` are the refreshes that
      were started and will release their keys when they end. */
  method AnswerFromCache(cache: DnsCache, k: CacheKey, now: int, claimed: int, sent: int, serveExpired: bool, noServeExpired: bool, replyTtl: nat)
    returns (r: Option<Response>, guards: seq<CacheKey>)
    requires cache.Valid() && claimed <= sent
    modifies cache`shards
    ensures cache.Valid()
    ensures var e := Lookup(cache.hash, old(cache.shards), k);
            if e.None? then r.None? && guards == []
            else if IsCurrent(e.value, now) then r == Some(SetNewTtl(e.value.data, SecondsLeft(e.value, now))) && guards == []
            else if !serveExpired || noServeExpired then r.None? && guards == []
            else && r.Some? && StaleAnswer(e.value.data, replyTtl, claimed + replyTtl * SECOND - sent, guards != [], r.value)
                 && guards == ToRefresh(cache.hash, old(cache.shards), k)
    ensures forall q :: Lookup(cache.hash, cache.shards, q) ==
                        (var e := Lookup(cache.hash, old(cache.shards), q);
                         var asked := if q == k && e.Some? then Some(e.value.(hits := e.value.hits + 1)) else e;
                         if q in guards then Refreshing(asked, claimed + replyTtl * SECOND) else asked)
  {
    guards := [];
    var hit := cache.Get(k, now);
    if hit.None? {
      return None, guards;
    }
    var (res, status) := hit.value;
    if status.Fresh? {
      return Some(res), guards;
    }
    if !serveExpired || noServeExpired {
      return None, guards;
    }
    var stale, started := StaleReply(cache, k, res, claimed, sent, replyTtl);
    return Some(stale), started;
  }

  /** Start a refresh and give the stale reply its short lifetimes. */
  method StaleReply(cache: DnsCache, k: CacheKey, res: Response, claimed: int, sent: int, replyTtl: nat)
    returns (r: Response, guards: seq<CacheKey>)
    requires cache.Valid() && claimed <= sent
    modifies cache`shards
    ensures cache.Valid()
    ensures StaleAnswer(res, replyTtl, claimed + replyTtl * SECOND - sent, guards != [], r)
    ensures guards == ToRefresh(cache.hash, old(cache.shards), k)
    ensures forall q :: Lookup(cache.hash, cache.shards, q) ==
                        (var e := Lookup(cache.hash, old(cache.shards), q);
                         if q in guards then Refreshing(e, claimed + replyTtl * SECOND) else e)
  {
    guards := StartRefresh(cache, k, claimed + replyTtl * SECOND);
    SecondsUntilBound(claimed, replyTtl, sent);
    SecondsUntilRoundsUp(claimed + replyTtl * SECOND, sent);
    var ttl := if guards != [] then SecondsUntil(claimed + replyTtl * SECOND, sent) else replyTtl % 0x1_0000_0000;
    assert ttl <= replyTtl;
    r := SetNewTtl(res, ttl);
  }

  /** Claim the key and, for addresses, its sibling; each claim moves the deadline. */
  method StartRefresh(cache: DnsCache, k: CacheKey, until: int) returns (guards: seq<CacheKey>)
    requires cache.Valid()
    modifies cache`shards
    ensures cache.Valid()
    ensures guards == ToRefresh(cache.hash, old(cache.shards), k)
    ensures forall q :: Lookup(cache.hash, cache.shards, q) ==
                        (var e := Lookup(cache.hash, old(cache.shards), q); if q in guards then Refreshing(e, until) else e)
  {
    guards := [];
    var mine := Claim(cache, k, until);
    if !mine {
      return;
    }
    guards := [k];
    if IsIpAddr(k.query.qtype) {
      var other := SiblingKey(k);
      assert other.query.qtype != k.query.qtype;
      var both := Claim(cache, other, until);
      if both {
        guards := guards + [other];
      }
    }
  }

  /** A claimed entry, where there is one: marked, and current at least until then. */
  function Refreshing(e: Option<Entry>, until: int): Option<Entry> {
    if e.None? then None
    else Some(e.value.(prefetching := true, validUntil := if e.value.validUntil < until then until else e.value.validUntil))
  }

  /** Claim a key for refresh and, on success, move its deadline. */
  method Claim(cache: DnsCache, k: CacheKey, until: int) returns (ok: bool)
    requires cache.Valid()
    modifies cache`shards
    ensures cache.Valid()
    ensures var e := Lookup(cache.hash, old(cache.shards), k);
            && (ok <==> e.None? || !e.value.prefetching)
            && Lookup(cache.hash, cache.shards, k) ==
               (if ok then Refreshing(e, until) else e)
    ensures forall q :: q != k ==> Lookup(cache.hash, cache.shards, q) == Lookup(cache.hash, old(cache.shards), q)
  {
    ok := cache.MarkPrefetching(k);
    if ok {
      cache.SetValidUntilForPrefetch(k, until);
    }
  }

  // ---------------------------------------------------------------- no bound on staleness

  /** What a well-formed cache holds under a key: data, deadline and marker. */
  ghost function Holding(c: R.Config, w: R.World, k: CacheKey): Option<(Response, int, bool)>
    requires |w.shards| == SHARD_COUNT
  {
    var e := R.At(c, w, k);
    if WellFormed(c.hash, c.cap, w.shards) && e.Some? then Some((e.value.data, e.value.validUntil, e.value.prefetching)) else None
  }

  lemma OneStep(c: R.Config, w: R.World, k: CacheKey, data: Response, was: int, step: R.Step, until: int, before: bool, marked: bool)
    requires |w.shards| == SHARD_COUNT && Holding(c, w, k) == Some((data, was, before))
    requires (step == R.ClientLookup(k) && until == was && marked == before) || (step == R.Claim(k) && until == was && marked) || (step == R.Release(k) && until == was && !marked)
             || (step == R.Extend(k, until) && was < until && marked == before)
    ensures Holding(c, R.Next(c, w, step), k) == Some((data, until, marked))
  {
    R.StepEffect(c, w, step, k);
  }

  lemma RunSnoc(c: R.Config, w: R.World, steps: seq<R.Step>, step: R.Step)
    requires |w.shards| == SHARD_COUNT
    ensures R.Run(c, w, steps + [step]) == R.Next(c, R.Run(c, w, steps), step)
  {
    assert (steps + [step])[..|steps|] == steps;
  }

  /** One more stale answer whose refresh fails: lookup, claim, extension, guard drop. */
  function WithStaleRound(before: seq<R.Step>, k: CacheKey, until: int): seq<R.Step> {
    before + [R.ClientLookup(k)] + [R.Claim(k)] + [R.Extend(k, until)] + [R.Release(k)]
  }

  /** The deadline after `n` extensions, each taken one instant after the last one ran out and
      for the reply lifetime, counted from then. */
  function Extensions(deadline: int, secs: nat, n: nat): (until: int)
    ensures until >= deadline + n
  {
    if n == 0 then deadline else Extensions(deadline, secs, n - 1) + 1 + secs * SECOND
  }

  /** How many stale answers in a row these steps are, each asked for when the deadline
      before has passed; nothing when they are anything else. */
  ghost function StaleRounds(steps: seq<R.Step>, k: CacheKey, deadline: int, secs: nat): Option<nat>
    decreases |steps|
  {
    if steps == [] then Some(0)
    else if |steps| < 4 then None
    else
      var before := steps[..|steps| - 4];
      var n := StaleRounds(before, k, deadline, secs);
      if n.Some? && steps == WithStaleRound(before, k, Extensions(deadline, secs, n.value + 1)) then Some(n.value + 1) else None
  }

  lemma OneMoreRound(before: seq<R.Step>, k: CacheKey, deadline: int, secs: nat, n: nat)
    requires n > 0 && StaleRounds(before, k, deadline, secs) == Some(n - 1)
    ensures StaleRounds(WithStaleRound(before, k, Extensions(deadline, secs, n)), k, deadline, secs) == Some(n)
  {
    var steps := WithStaleRound(before, k, Extensions(deadline, secs, n));
    assert steps[..|steps| - 4] == before;
  }

  lemma RoundAt(c: R.Config, w: R.World, k: CacheKey, data: Response, before: seq<R.Step>, mid: int, until: int)
    requires |w.shards| == SHARD_COUNT && Holding(c, R.Run(c, w, before), k) == Some((data, mid, false)) && mid < until
    ensures Holding(c, R.Run(c, w, WithStaleRound(before, k, until)), k) == Some((data, until, false))
  {
    RunSnoc(c, w, before, R.ClientLookup(k));
    OneStep(c, R.Run(c, w, before), k, data, mid, R.ClientLookup(k), mid, false, false);
    var s1 := before + [R.ClientLookup(k)];
    RunSnoc(c, w, s1, R.Claim(k));
    OneStep(c, R.Run(c, w, s1), k, data, mid, R.Claim(k), mid, false, true);
    var s2 := s1 + [R.Claim(k)];
    RunSnoc(c, w, s2, R.Extend(k, until));
    OneStep(c, R.Run(c, w, s2), k, data, mid, R.Extend(k, until), until, true, true);
    var s3 := s2 + [R.Extend(k, until)];
    RunSnoc(c, w, s3, R.Release(k));
    OneStep(c, R.Run(c, w, s3), k, data, until, R.Release(k), until, true, false);
  }

  lemma NoRound(c: R.Config, w: R.World, k: CacheKey, data: Response, deadline: int, secs: nat) returns (steps: seq<R.Step>)
    requires |w.shards| == SHARD_COUNT && Holding(c, w, k) == Some((data, deadline, false))
    ensures StaleRounds(steps, k, deadline, secs) == Some(0)
    ensures Holding(c, R.Run(c, w, steps), k) == Some((data, Extensions(deadline, secs, 0), false))
  {
    steps := [];
  }

  lemma NextRound(c: R.Config, w: R.World, k: CacheKey, data: Response, deadline: int, secs: nat, n: nat, before: seq<R.Step>)
    returns (steps: seq<R.Step>)
    requires n > 0 && |w.shards| == SHARD_COUNT && StaleRounds(before, k, deadline, secs) == Some(n - 1)
    requires Holding(c, R.Run(c, w, before), k) == Some((data, Extensions(deadline, secs, n - 1), false))
    ensures StaleRounds(steps, k, deadline, secs) == Some(n)
    ensures Holding(c, R.Run(c, w, steps), k) == Some((data, Extensions(deadline, secs, n), false))
  {
    steps := WithStaleRound(before, k, Extensions(deadline, secs, n));
    OneMoreRound(before, k, deadline, secs, n);
    RoundAt(c, w, k, data, before, Extensions(deadline, secs, n - 1), Extensions(deadline, secs, n));
  }

  /** Serving stale data has no bound: for every bound there is a run of stale answers, each
      asked for when the deadline before has passed and each extending it by the reply
      lifetime only, after which the same data is current past its original deadline plus
      that bound. */
  lemma {:induction false} StalenessUnbounded(c: R.Config, w: R.World, k: CacheKey, data: Response, deadline: int, secs: nat, bound: nat)
    returns (steps: seq<R.Step>)
    requires |w.shards| == SHARD_COUNT && Holding(c, w, k) == Some((data, deadline, false))
    ensures StaleRounds(steps, k, deadline, secs) == Some(bound)
    ensures Holding(c, R.Run(c, w, steps), k) == Some((data, Extensions(deadline, secs, bound), false))
    ensures Extensions(deadline, secs, bound) >= deadline + bound
  {
    hide *;
    if bound == 0 {
      steps := NoRound(c, w, k, data, deadline, secs);
    } else {
      var before := StalenessUnbounded(c, w, k, data, deadline, secs, bound - 1);
      steps := NextRound(c, w, k, data, deadline, secs, bound, before);
    }
  }

  // ---------------------------------------------------------------- what moves a deadline

  /** The step neither extends the key nor puts something new under it. */
  predicate LeavesDeadline(step: R.Step, k: CacheKey) {
    (step.Extend? || step.Write? || step.Load?) ==> step.k != k
  }

  /** The other half: without an extension, a write or a load of the key its deadline never
      moves and its data never changes, whatever else happens; it can only disappear. */
  lemma {:induction false} DeadlineStays(c: R.Config, w: R.World, k: CacheKey, steps: seq<R.Step>)
    requires WellFormed(c.hash, c.cap, w.shards)
    requires forall i :: 0 <= i < |steps| ==> LeavesDeadline(steps[i], k)
    ensures WellFormed(c.hash, c.cap, R.Run(c, w, steps).shards)
    ensures SameDeadline(R.At(c, w, k), R.At(c, R.Run(c, w, steps), k))
  {
    if steps != [] {
      var init, last := steps[..|steps| - 1], steps[|steps| - 1];
      DeadlineStays(c, w, k, init);
      R.StepEffect(c, R.Run(c, w, init), last, k);
      EffectKeepsDeadline(last, k, R.At(c, R.Run(c, w, init), k), R.At(c, R.Next(c, R.Run(c, w, init), last), k));
    }
  }

  /** Later there is nothing, or the same data with the same deadline. */
  predicate SameDeadline(before: Option<Entry>, after: Option<Entry>) {
    after.Some? ==> before.Some? && after.value.validUntil == before.value.validUntil && after.value.data == before.value.data
  }

  lemma EffectKeepsDeadline(step: R.Step, k: CacheKey, before: Option<Entry>, after: Option<Entry>)
    requires R.Effect(step, k, before, after) && LeavesDeadline(step, k)
    ensures SameDeadline(before, after)
  {
  }
}
