/** The cache under concurrent use: every interleaving of client lookups, refresh claims,
    writes, background sweeps, guard drops, garbage collection, clearing and file loads, each
    critical section being one step.  The counters beside the shards are history. */
module CacheRuns {
  import opened Dns
  import opened Lru
  import opened Cache

  datatype Config = Config(hash: Hasher, cap: nat)

  datatype World = World(
    shards: Slots,
    guards: multiset<CacheKey>,      // refreshes scheduled or under way, by key
    lookups: multiset<CacheKey>,     // client lookups so far
    selections: multiset<CacheKey>,  // times the sweep picked a key
    loaded: multiset<CacheKey>,      // popularity above one brought in from a file
    clock: nat,
    used: map<CacheKey, nat>)        // when a key was last touched

  datatype Step =
    | ClientLookup(k: CacheKey)
    | Claim(k: CacheKey)
    | Extend(k: CacheKey, until: int)
    | Write(k: CacheKey, r: Response, now: int, fromPrefetch: bool)
    | Release(k: CacheKey)
    | Load(k: CacheKey, e: Entry, onlyMissing: bool)
    | Sweep(shard: nat, p: Policy, now: int, ahead: nat)
    | Collect(shard: nat, p: Policy, now: int)
    | Clear(shard: nat)

  /** Popularity an entry can still spend on being selected. */
  function Surplus(e: Option<Entry>): nat {
    if e.Some? && e.value.hits >= 1 then e.value.hits - 1 else 0
  }

  function KeysOf(picked: seq<(CacheKey, nat)>): multiset<CacheKey> {
    if picked == [] then multiset{} else multiset{picked[0].0} + KeysOf(picked[1..])
  }

  /** The keys a sweep picks in a shard. */
  function Chosen(p: Policy, now: int, ahead: nat, s: Shard<CacheKey, Entry>): multiset<CacheKey> {
    KeysOf(Selected(p, now, ahead, s))
  }

  /** A keyed access: what it does to the key's shard. */
  function Keyed(c: Config, s: Shard<CacheKey, Entry>, step: Step): Shard<CacheKey, Entry> {
    match step
    case ClientLookup(k) => Update(s, k, Hit)
    case Claim(k) => Update(s, k, Marked)
    case Extend(k, until) => Update(s, k, Extended(until))
    case Write(k, r, now, fromPrefetch) => InsertInto(s, c.cap, k, r, now, fromPrefetch)
    case Release(k) => Update(s, k, Unmarked)
    case Load(k, e, onlyMissing) => if onlyMissing && Has(s, k) then s else Put(s, c.cap, k, Unmarked(e))
    case _ => s
  }

  predicate IsKeyed(step: Step) {
    !step.Sweep? && !step.Collect? && !step.Clear?
  }

  /** Does a keyed access move its key to the front of the recency list? */
  predicate Touches(s: Shard<CacheKey, Entry>, step: Step)
    requires IsKeyed(step)
  {
    match step
    case Write(_, _, _, _) => true
    case Load(k, _, onlyMissing) => !(onlyMissing && Has(s, k))
    case _ => Has(s, step.k)
  }

  function NextKeyed(c: Config, w: World, step: Step): World
    requires |w.shards| == SHARD_COUNT && IsKeyed(step)
  {
    var i := ShardOf(c.hash, step.k);
    var s := w.shards[i];
    var free := Has(s, step.k) ==> !Get(s, step.k).prefetching;
    w.(shards := w.shards[i := Keyed(c, s, step)],
    guards := if step.Claim? && free then w.guards + multiset{step.k}
    else if step.Release? then w.guards - multiset{step.k} else w.guards,
    lookups := if step.ClientLookup? then w.lookups + multiset{step.k} else w.lookups,
    loaded := if step.Load? && Touches(s, step) then w.loaded[step.k := w.loaded[step.k] + Surplus(Some(step.e))] else w.loaded,
    clock := w.clock + 1,
    used := if Touches(s, step) then w.used[step.k := w.clock] else w.used)
  }

  function Next(c: Config, w: World, step: Step): (w': World)
    requires |w.shards| == SHARD_COUNT
    ensures |w'.shards| == SHARD_COUNT
  {
    match step
    case Sweep(i, p, now, ahead) =>
      if i >= SHARD_COUNT then w
      else
        var chosen := Chosen(p, now, ahead, w.shards[i]);
        w.(shards := w.shards[i := SelectAll(p, now, ahead, w.shards[i])],
        guards := w.guards + chosen, selections := w.selections + chosen)
    case Collect(i, p, now) =>
      if i >= SHARD_COUNT then w else w.(shards := w.shards[i := Survivors(p, now, w.shards[i])])
    case Clear(i) =>
      if i >= SHARD_COUNT then w else w.(shards := w.shards[i := []])
    case _ => NextKeyed(c, w, step)
  }

  function Run(c: Config, w: World, steps: seq<Step>): (w': World)
    requires |w.shards| == SHARD_COUNT
    ensures |w'.shards| == SHARD_COUNT
  {
    if steps == [] then w else Next(c, Run(c, w, steps[..|steps| - 1]), steps[|steps| - 1])
  }

  function At(c: Config, w: World, k: CacheKey): Option<Entry>
    requires |w.shards| == SHARD_COUNT
  {
    Lookup(c.hash, w.shards, k)
  }

  // ---------------------------------------------------------------- what a step does to one key

  lemma {:induction false} ChosenCount(p: Policy, now: int, ahead: nat, s: Shard<CacheKey, Entry>, k: CacheKey)
    requires Distinct(s)
    ensures Chosen(p, now, ahead, s)[k] == if Has(s, k) && Eligible(p, now, ahead, Item(k, Get(s, k))) then 1 else 0
  {
    if s != [] {
      ChosenCount(p, now, ahead, s[1..], k);
      HasMember(s[1..], k);
      ChosenStep(p, now, ahead, s);
    }
  }

  lemma ChosenStep(p: Policy, now: int, ahead: nat, s: Shard<CacheKey, Entry>)
    requires s != []
    ensures Chosen(p, now, ahead, s) ==
            (if Eligible(p, now, ahead, s[0]) then multiset{s[0].key} else multiset{}) + Chosen(p, now, ahead, s[1..])
  {
    var rest := Selected(p, now, ahead, s[1..]);
    if Eligible(p, now, ahead, s[0]) {
      assert ([(s[0].key, s[0].value.hits)] + rest)[1..] == rest;
    } else {
      assert [] + rest == rest;
    }
  }

  lemma SelectedLookup(p: Policy, now: int, ahead: nat, s: Shard<CacheKey, Entry>, k: CacheKey)
    requires Distinct(s)
    ensures Distinct(SelectAll(p, now, ahead, s))
    ensures Has(SelectAll(p, now, ahead, s), k) <==> Has(s, k)
    ensures Has(s, k) ==> Get(SelectAll(p, now, ahead, s), k) == Select(p, now, ahead, Item(k, Get(s, k))).value
  {
    var t := SelectAll(p, now, ahead, s);
    HasMember(s, k);
    HasMember(t, k);
    if Has(s, k) {
      GetAt(t, Find(s, k));
    }
    if Has(t, k) {
      assert s[Find(t, k)].key == k;
    }
  }

  /** What a shard holds under a key. */
  function In(s: Shard<CacheKey, Entry>, k: CacheKey): Option<Entry> {
    if Has(s, k) then Some(Get(s, k)) else None
  }

  /** What a step may do to the entry under any one key. */
  ghost predicate Effect(step: Step, q: CacheKey, before: Option<Entry>, after: Option<Entry>) {
    match step
    case ClientLookup(k) =>
      after == if q == k && before.Some? then Some(before.value.(hits := before.value.hits + 1)) else before
    case Claim(k) => after == if q == k && before.Some? then Some(before.value.(prefetching := true)) else before
    case Extend(k, until) =>
      after == if q == k && before.Some? && before.value.validUntil < until then Some(before.value.(validUntil := until)) else before
    case Release(k) => after == if q == k && before.Some? then Some(before.value.(prefetching := false)) else before
    case Write(k, r, now, fromPrefetch) =>
      if q == k then
        var deadline := now + StoredTtl(r) * SECOND;
        after == Some(Entry(SetNewTtl(r, StoredTtl(r)), Some(k.group), deadline, false,
                            if before.None? then 0 else if fromPrefetch then 1 else before.value.hits,
                            if before.None? then k.ecs else before.value.ecs,
                            if before.None? then k.opts else before.value.opts))
      else after == before || after.None?
    case Load(k, e, onlyMissing) =>
      if q == k && !(onlyMissing && before.Some?) then after == Some(e.(prefetching := false))
      else after == before || after.None?
    case Sweep(_, p, now, ahead) =>
      after == before
      || (before.Some? && before.value.hits >= 2
          && after == Some(before.value.(prefetching := true, hits := before.value.hits - 1)))
    case Collect(_, p, now) =>
      after == before
      || (after.None? && before.Some? && now > before.value.validUntil + (if p.serveExpired then p.expiredTtl * SECOND else 0))
    case Clear(_) => after == before || after.None?
  }

  /** A keyed access keeps its shard's shape and has the stated effect there. */
  lemma KeyedShard(c: Config, s: Shard<CacheKey, Entry>, step: Step, q: CacheKey)
    requires IsKeyed(step) && c.cap >= 1 && ShardOk(c.hash, c.cap, s, ShardOf(c.hash, step.k))
    ensures ShardOk(c.hash, c.cap, Keyed(c, s, step), ShardOf(c.hash, step.k))
    ensures Effect(step, q, In(s, q), In(Keyed(c, s, step), q))
  {
    var i, k := ShardOf(c.hash, step.k), step.k;
    match step {
      case ClientLookup(_) => UpdateShard(c, s, i, k, Hit, q);
      case Claim(_) => UpdateShard(c, s, i, k, Marked, q);
      case Extend(_, until) => UpdateShard(c, s, i, k, Extended(until), q);
      case Release(_) => UpdateShard(c, s, i, k, Unmarked, q);
      case Write(_, r, now, fromPrefetch) => WrittenShard(c, s, k, r, now, fromPrefetch, q);
      case Load(_, e, onlyMissing) => PutShard(c, s, i, k, Unmarked(e), q);
    }
  }

  lemma WrittenShard(c: Config, s: Shard<CacheKey, Entry>, k: CacheKey, r: Response, now: int, fromPrefetch: bool, q: CacheKey)
    requires c.cap >= 1 && ShardOk(c.hash, c.cap, s, ShardOf(c.hash, k))
    ensures var step := Write(k, r, now, fromPrefetch);
            && ShardOk(c.hash, c.cap, Keyed(c, s, step), ShardOf(c.hash, k))
            && Effect(step, q, In(s, q), In(Keyed(c, s, step), q))
  {
    if Has(s, k) {
      UpdateShard(c, s, ShardOf(c.hash, k), k, Rewritten(k, r, now, fromPrefetch), q);
    } else {
      PutShard(c, s, ShardOf(c.hash, k), k, NewEntry(k, r, now), q);
    }
  }

  lemma UpdateShard(c: Config, s: Shard<CacheKey, Entry>, i: nat, k: CacheKey, f: Entry -> Entry, q: CacheKey)
    requires ShardOk(c.hash, c.cap, s, i)
    ensures ShardOk(c.hash, c.cap, Update(s, k, f), i)
    ensures In(Update(s, k, f), q) == if q == k && In(s, q).Some? then Some(f(In(s, q).value)) else In(s, q)
  {
    UpdateShardOk(c.hash, c.cap, s, i, k, f);
    UpdateLaws(s, k, f);
  }

  lemma PutShard(c: Config, s: Shard<CacheKey, Entry>, i: nat, k: CacheKey, e: Entry, q: CacheKey)
    requires ShardOk(c.hash, c.cap, s, i) && c.cap >= 1 && ShardOf(c.hash, k) == i
    ensures ShardOk(c.hash, c.cap, Put(s, c.cap, k, e), i)
    ensures q == k ==> In(Put(s, c.cap, k, e), q) == Some(e)
    ensures q != k ==> In(Put(s, c.cap, k, e), q) == In(s, q) || In(Put(s, c.cap, k, e), q).None?
  {
    PutShardOk(c.hash, c.cap, s, i, k, e);
    PutLaws(s, c.cap, k, e);
  }

  lemma KeyedEffect(c: Config, w: World, step: Step, q: CacheKey)
    requires WellFormed(c.hash, c.cap, w.shards) && IsKeyed(step)
    ensures WellFormed(c.hash, c.cap, Next(c, w, step).shards)
    ensures Effect(step, q, At(c, w, q), At(c, Next(c, w, step), q))
  {
    var i := ShardOf(c.hash, step.k);
    var s := w.shards[i];
    assert ShardOk(c.hash, c.cap, s, i);
    KeyedShard(c, s, step, q);
    WriteBack(c.hash, c.cap, w.shards, i, Keyed(c, s, step));
    assert Next(c, w, step).shards == w.shards[i := Keyed(c, s, step)];
    if ShardOf(c.hash, q) == i {
      assert At(c, w, q) == In(s, q) && At(c, Next(c, w, step), q) == In(Keyed(c, s, step), q);
    } else {
      EffectElsewhere(step, q, At(c, w, q));
    }
  }

  lemma EffectElsewhere(step: Step, q: CacheKey, e: Option<Entry>)
    requires IsKeyed(step) && q != step.k
    ensures Effect(step, q, e, e)
  {
  }

  /** What a pass over a shard leaves there. */
  function Passed(s: Shard<CacheKey, Entry>, step: Step): Shard<CacheKey, Entry> {
    match step
    case Sweep(_, p, now, ahead) => SelectAll(p, now, ahead, s)
    case Collect(_, p, now) => Survivors(p, now, s)
    case _ => []
  }

  lemma SweptShard(c: Config, s: Shard<CacheKey, Entry>, step: Step, q: CacheKey)
    requires !IsKeyed(step) && ShardOk(c.hash, c.cap, s, step.shard)
    ensures ShardOk(c.hash, c.cap, Passed(s, step), step.shard)
    ensures Effect(step, q, In(s, q), In(Passed(s, step), q))
  {
    match step {
      case Sweep(_, p, now, ahead) => SelectedLookup(p, now, ahead, s, q);
      case Collect(i, p, now) => SurvivorsShardOk(c.hash, c.cap, p, now, s, i); SurvivorLookup(p, now, s, q);
      case Clear(_) =>
    }
  }

  lemma NothingElsewhere(step: Step, q: CacheKey, e: Option<Entry>)
    requires !IsKeyed(step)
    ensures Effect(step, q, e, e)
  {
  }

  lemma SweptEffect(c: Config, w: World, step: Step, q: CacheKey)
    requires WellFormed(c.hash, c.cap, w.shards) && !IsKeyed(step)
    ensures WellFormed(c.hash, c.cap, Next(c, w, step).shards)
    ensures Effect(step, q, At(c, w, q), At(c, Next(c, w, step), q))
  {
    hide Effect, Passed, SelectAll, Survivors, Chosen;
    var i := step.shard;
    NothingElsewhere(step, q, At(c, w, q));
    if i < SHARD_COUNT {
      var s := w.shards[i];
      assert ShardOk(c.hash, c.cap, s, i);
      SweptShard(c, s, step, q);
      WriteBack(c.hash, c.cap, w.shards, i, Passed(s, step));
      PassIsNext(c, w, step);
    }
  }

  lemma PassIsNext(c: Config, w: World, step: Step)
    requires |w.shards| == SHARD_COUNT && !IsKeyed(step)
    ensures Next(c, w, step).shards == if step.shard < SHARD_COUNT then w.shards[step.shard := Passed(w.shards[step.shard], step)] else w.shards
  {
  }

  lemma StepEffect(c: Config, w: World, step: Step, q: CacheKey)
    requires WellFormed(c.hash, c.cap, w.shards)
    ensures WellFormed(c.hash, c.cap, Next(c, w, step).shards)
    ensures Effect(step, q, At(c, w, q), At(c, Next(c, w, step), q))
  {
    if IsKeyed(step) {
      KeyedEffect(c, w, step, q);
    } else {
      SweptEffect(c, w, step, q);
    }
  }

  /** A sweep counts a key exactly when it takes one from its popularity and marks it. */
  lemma SweepCounts(c: Config, w: World, step: Step, q: CacheKey)
    requires WellFormed(c.hash, c.cap, w.shards) && step.Sweep? && step.shard < SHARD_COUNT
    ensures var n := Chosen(step.p, step.now, step.ahead, w.shards[step.shard])[q];
            var before, after := At(c, w, q), At(c, Next(c, w, step), q);
            if n == 0 then after == before
            else n == 1 && before.Some? && after.Some? && before.value.hits >= 2
                 && after.value.hits == before.value.hits - 1 && after.value.prefetching
  {
    var i := step.shard;
    assert ShardOk(c.hash, c.cap, w.shards[i], i);
    ChosenCount(step.p, step.now, step.ahead, w.shards[i], q);
    SelectedLookup(step.p, step.now, step.ahead, w.shards[i], q);
    SweptEffect(c, w, step, q);
    if Has(w.shards[i], q) {
      OnlyInItsShard(c.hash, c.cap, w.shards, i, q);
    }
  }

  /** Is an entry due for a background refresh, by its own fields? */
  predicate Due(q: CacheKey, e: Entry, p: Policy, now: int, ahead: nat) {
    && !e.prefetching
    && (q.query.qtype == A || q.query.qtype == AAAA)
    && e.hits >= 2
    && (if p.serveExpired
        then now > e.validUntil && (p.prefetchTime == 0 || now >= e.validUntil + p.prefetchTime * SECOND)
        else now + ahead * SECOND > e.validUntil)
  }

  /** What a sweep of its shard does with a key: picked once, marked and one hit poorer when
      it is unmarked, asks for an address, was asked for twice, and is past its deadline by
      the waiting time (or within the margin before it when nothing expired is served);
      otherwise, or in another shard, not picked and not changed. */
  lemma SweepPicksExactly(c: Config, w: World, i: nat, p: Policy, now: int, ahead: nat, q: CacheKey)
    requires WellFormed(c.hash, c.cap, w.shards) && i < SHARD_COUNT
    ensures var w' := Next(c, w, Sweep(i, p, now, ahead));
            var e := At(c, w, q);
            if i == ShardOf(c.hash, q) && e.Some? && Due(q, e.value, p, now, ahead)
            then w'.selections[q] == w.selections[q] + 1 && w'.guards[q] == w.guards[q] + 1
                 && At(c, w', q) == Some(e.value.(prefetching := true, hits := e.value.hits - 1))
            else w'.selections[q] == w.selections[q] && w'.guards[q] == w.guards[q] && At(c, w', q) == e
  {
    var s := w.shards[i];
    assert ShardOk(c.hash, c.cap, s, i);
    ChosenCount(p, now, ahead, s, q);
    SelectedLookup(p, now, ahead, s, q);
    if Has(s, q) {
      OnlyInItsShard(c.hash, c.cap, w.shards, i, q);
      DueIsEligible(q, s[Find(s, q)].value, p, now, ahead);
    }
  }

  lemma DueIsEligible(q: CacheKey, e: Entry, p: Policy, now: int, ahead: nat)
    ensures Eligible(p, now, ahead, Item(q, e)) <==> Due(q, e, p, now, ahead)
  {
    var late := now - e.validUntil;
    assert late / SECOND >= p.prefetchTime <==> late >= p.prefetchTime * SECOND;
  }

  // ---------------------------------------------------------------- recency

  /** A recency list is ordered by last use, latest first. */
  ghost predicate Ordered(used: map<CacheKey, nat>, clock: nat, s: Shard<CacheKey, Entry>) {
    && (forall i :: 0 <= i < |s| ==> s[i].key in used && used[s[i].key] < clock)
    && (forall i, j :: 0 <= i < j < |s| ==> s[i].key in used && s[j].key in used && used[s[i].key] > used[s[j].key])
  }

  lemma PopOrdered(used: map<CacheKey, nat>, clock: nat, s: Shard<CacheKey, Entry>, k: CacheKey)
    requires Ordered(used, clock, s) && Distinct(s)
    ensures Ordered(used, clock, Pop(s, k))
    ensures forall i :: 0 <= i < |Pop(s, k)| ==> Pop(s, k)[i].key != k
  {
    var p, i := Pop(s, k), Find(s, k);
    assert i < |s| ==> forall j :: 0 <= j < |p| ==> p[j] == if j < i then s[j] else s[j + 1];
  }

  /** Putting a key in front, with the current time as its last use, keeps the order. */
  lemma ConsOrdered(used: map<CacheKey, nat>, clock: nat, s: Shard<CacheKey, Entry>, k: CacheKey, e: Entry)
    requires Ordered(used, clock, s) && forall i :: 0 <= i < |s| ==> s[i].key != k
    ensures Ordered(used[k := clock], clock + 1, [Item(k, e)] + s)
  {
  }

  /** A key touched elsewhere does not disturb a list that lacks it. */
  lemma OtherOrdered(used: map<CacheKey, nat>, clock: nat, s: Shard<CacheKey, Entry>, k: CacheKey)
    requires Ordered(used, clock, s) && forall i :: 0 <= i < |s| ==> s[i].key != k
    ensures Ordered(used[k := clock], clock + 1, s)
  {
  }

  /** Every access that touches a key puts it in front of what is left of the list. */
  lemma KeyedShape(c: Config, s: Shard<CacheKey, Entry>, step: Step)
    requires IsKeyed(step)
    ensures !Touches(s, step) ==> Keyed(c, s, step) == s
    ensures Touches(s, step) ==>
              var t := Keyed(c, s, step);
              t != [] && t == [Item(step.k, t[0].value)] + Kept(c, s, step.k)
  {
  }

  function Kept(c: Config, s: Shard<CacheKey, Entry>, k: CacheKey): Shard<CacheKey, Entry> {
    if Has(s, k) then Pop(s, k) else if |s| >= c.cap && |s| > 0 then s[..|s| - 1] else s
  }

  lemma KeptOrdered(c: Config, used: map<CacheKey, nat>, clock: nat, s: Shard<CacheKey, Entry>, k: CacheKey)
    requires Distinct(s) && Ordered(used, clock, s)
    ensures Ordered(used, clock, Kept(c, s, k))
    ensures forall i :: 0 <= i < |Kept(c, s, k)| ==> Kept(c, s, k)[i].key != k
  {
    PopOrdered(used, clock, s, k);
  }

  lemma KeyedOrdered(c: Config, used: map<CacheKey, nat>, clock: nat, s: Shard<CacheKey, Entry>, step: Step)
    requires IsKeyed(step) && Distinct(s) && Ordered(used, clock, s)
    ensures Ordered(if Touches(s, step) then used[step.k := clock] else used, clock + 1, Keyed(c, s, step))
  {
    KeyedShape(c, s, step);
    KeptOrdered(c, used, clock, s, step.k);
    if Touches(s, step) {
      ConsOrdered(used, clock, Kept(c, s, step.k), step.k, Keyed(c, s, step)[0].value);
    }
  }

  lemma {:induction false} SurvivorsOrdered(used: map<CacheKey, nat>, clock: nat, p: Policy, now: int, s: Shard<CacheKey, Entry>)
    requires Ordered(used, clock, s)
    ensures Ordered(used, clock, Survivors(p, now, s))
  {
    if s != [] {
      var rest := Survivors(p, now, s[1..]);
      SurvivorsOrdered(used, clock, p, now, s[1..]);
      forall j | 0 <= j < |rest| ensures rest[j].key in used && used[rest[j].key] < used[s[0].key] {
        assert rest[j] in s[1..];
      }
    }
  }

  // ---------------------------------------------------------------- the invariant

  ghost predicate Guarded(c: Config, w: World, k: CacheKey)
    requires |w.shards| == SHARD_COUNT
  {
    At(c, w, k).Some? && At(c, w, k).value.prefetching ==> w.guards[k] >= 1
  }

  ghost predicate WithinBudget(c: Config, w0: World, w: World, k: CacheKey)
    requires |w0.shards| == SHARD_COUNT && |w.shards| == SHARD_COUNT
  {
    w.selections[k] + Surplus(At(c, w, k)) <= Surplus(At(c, w0, k)) + w.lookups[k] + w.loaded[k]
  }

  ghost predicate ListsOrdered(w: World) {
    forall i :: 0 <= i < |w.shards| ==> Ordered(w.used, w.clock, w.shards[i])
  }

  /** Where a run may start: any well-formed cache with no refresh under way. */
  ghost predicate Start(c: Config, w: World) {
    && WellFormed(c.hash, c.cap, w.shards)
    && w.guards == w.lookups == w.selections == w.loaded == multiset{}
    && (forall k :: Guarded(c, w, k))
    && ListsOrdered(w)
  }

  ghost predicate Inv(c: Config, w0: World, w: World)
    requires |w0.shards| == SHARD_COUNT
  {
    && WellFormed(c.hash, c.cap, w.shards)
    && (forall k :: Guarded(c, w, k))
    && (forall k :: WithinBudget(c, w0, w, k))
    && ListsOrdered(w)
  }

  lemma NextGuarded(c: Config, w: World, step: Step, q: CacheKey)
    requires WellFormed(c.hash, c.cap, w.shards) && Guarded(c, w, q)
    ensures Guarded(c, Next(c, w, step), q)
  {
    StepEffect(c, w, step, q);
    if step.Sweep? && step.shard < SHARD_COUNT {
      SweepCounts(c, w, step, q);
    }
  }

  lemma NextBudget(c: Config, w0: World, w: World, step: Step, q: CacheKey)
    requires WellFormed(c.hash, c.cap, w.shards) && |w0.shards| == SHARD_COUNT
    requires WithinBudget(c, w0, w, q)
    ensures WithinBudget(c, w0, Next(c, w, step), q)
  {
    StepEffect(c, w, step, q);
    if step.Sweep? && step.shard < SHARD_COUNT {
      SweepCounts(c, w, step, q);
    }
  }

  lemma KeyedOrderedAt(c: Config, w: World, step: Step, i: nat)
    requires WellFormed(c.hash, c.cap, w.shards) && i < SHARD_COUNT && IsKeyed(step)
    requires Ordered(w.used, w.clock, w.shards[i])
    ensures var w' := NextKeyed(c, w, step); Ordered(w'.used, w'.clock, w'.shards[i])
  {
    var s := w.shards[i];
    assert ShardOk(c.hash, c.cap, s, i);
    if i == ShardOf(c.hash, step.k) {
      KeyedOrdered(c, w.used, w.clock, s, step);
    } else {
      OtherOrdered(w.used, w.clock, s, step.k);
    }
  }

  lemma SelectedOrdered(used: map<CacheKey, nat>, clock: nat, p: Policy, now: int, ahead: nat, s: Shard<CacheKey, Entry>)
    requires Ordered(used, clock, s)
    ensures Ordered(used, clock, SelectAll(p, now, ahead, s))
  {
    var t := SelectAll(p, now, ahead, s);
    assert forall i :: 0 <= i < |s| ==> t[i].key == s[i].key;
  }

  lemma SweptOrderedAt(c: Config, w: World, step: Step, i: nat)
    requires |w.shards| == SHARD_COUNT && i < SHARD_COUNT && !IsKeyed(step)
    requires Ordered(w.used, w.clock, w.shards[i])
    ensures var w' := Next(c, w, step); Ordered(w'.used, w'.clock, w'.shards[i])
  {
    if step.Collect? {
      SurvivorsOrdered(w.used, w.clock, step.p, step.now, w.shards[i]);
    }
    if step.Sweep? {
      SelectedOrdered(w.used, w.clock, step.p, step.now, step.ahead, w.shards[i]);
    }
  }

  lemma NextOrdered(c: Config, w: World, step: Step)
    requires WellFormed(c.hash, c.cap, w.shards) && ListsOrdered(w)
    ensures ListsOrdered(Next(c, w, step))
  {
    var w' := Next(c, w, step);
    forall i | 0 <= i < |w'.shards| ensures Ordered(w'.used, w'.clock, w'.shards[i]) {
      if IsKeyed(step) {
        KeyedOrderedAt(c, w, step, i);
      } else {
        SweptOrderedAt(c, w, step, i);
      }
    }
  }

  lemma {:induction false} RunInv(c: Config, w0: World, steps: seq<Step>)
    requires Start(c, w0)
    ensures Inv(c, w0, Run(c, w0, steps))
  {
    if steps != [] {
      var init, last := steps[..|steps| - 1], steps[|steps| - 1];
      RunInv(c, w0, init);
      var w := Run(c, w0, init);
      StepEffect(c, w, last, CacheKey(Query("", A), "", None, 0));
      forall k ensures Guarded(c, Next(c, w, last), k) && WithinBudget(c, w0, Next(c, w, last), k) {
        NextGuarded(c, w, last, k);
        NextBudget(c, w0, w, last, k);
      }
      NextOrdered(c, w, last);
    }
  }

  // ---------------------------------------------------------------- theorems over whole runs

  /** No stuck marker: in every reachable state a marked entry has a refresh outstanding, so
      when no refresh is outstanding nothing is marked. */
  lemma NoStuckMarker(c: Config, w0: World, steps: seq<Step>, k: CacheKey)
    requires Start(c, w0)
    ensures var w := Run(c, w0, steps);
            var e := At(c, w, k);
            && (e.Some? && e.value.prefetching ==> k in w.guards)
            && (w.guards == multiset{} && e.Some? ==> !e.value.prefetching)
  {
    RunInv(c, w0, steps);
    assert Guarded(c, Run(c, w0, steps), k);
  }

  /** How often a run asks for a key. */
  function Asked(steps: seq<Step>, k: CacheKey): nat {
    if steps == [] then 0
    else Asked(steps[..|steps| - 1], k) + (if steps[|steps| - 1] == ClientLookup(k) then 1 else 0)
  }

  /** The popularity above one that a run reads from files for a key. */
  function Brought(steps: seq<Step>, k: CacheKey): nat {
    if steps == [] then 0
    else
      var step := steps[|steps| - 1];
      Brought(steps[..|steps| - 1], k) + (if step.Load? && step.k == k && step.e.hits >= 1 then step.e.hits - 1 else 0)
  }

  /** How many sweeps of a run find a key due. */
  function Picks(c: Config, w: World, steps: seq<Step>, k: CacheKey): nat
    requires |w.shards| == SHARD_COUNT
  {
    if steps == [] then 0
    else
      var init, step := steps[..|steps| - 1], steps[|steps| - 1];
      Picks(c, w, init, k) + (if Picked(c, Run(c, w, init), step, k) then 1 else 0)
  }

  predicate Picked(c: Config, w: World, step: Step, k: CacheKey)
    requires |w.shards| == SHARD_COUNT
  {
    step.Sweep? && step.shard == ShardOf(c.hash, k) && At(c, w, k).Some?
    && Due(k, At(c, w, k).value, step.p, step.now, step.ahead)
  }

  /** The counters in the world count what happens in the run. */
  lemma {:induction false} CountersCount(c: Config, w: World, steps: seq<Step>, k: CacheKey)
    requires WellFormed(c.hash, c.cap, w.shards)
    ensures var w' := Run(c, w, steps);
            && WellFormed(c.hash, c.cap, w'.shards)
            && w'.lookups[k] == w.lookups[k] + Asked(steps, k)
            && w'.loaded[k] <= w.loaded[k] + Brought(steps, k)
            && w'.selections[k] == w.selections[k] + Picks(c, w, steps, k)
  {
    if steps != [] {
      var init, last := steps[..|steps| - 1], steps[|steps| - 1];
      CountersCount(c, w, init, k);
      StepEffect(c, Run(c, w, init), last, k);
      StepCounts(c, Run(c, w, init), last, k);
    }
  }

  lemma StepCounts(c: Config, w: World, step: Step, k: CacheKey)
    requires WellFormed(c.hash, c.cap, w.shards)
    ensures var w' := Next(c, w, step);
            && w'.lookups[k] == w.lookups[k] + (if step == ClientLookup(k) then 1 else 0)
            && w'.loaded[k] <= w.loaded[k] + (if step.Load? && step.k == k && step.e.hits >= 1 then step.e.hits - 1 else 0)
            && w'.selections[k] == w.selections[k] + (if Picked(c, w, step, k) then 1 else 0)
  {
    if step.Sweep? && step.shard < SHARD_COUNT {
      SweepPicksExactly(c, w, step.shard, step.p, step.now, step.ahead, k);
    }
  }

  /** Prefetch conservation: over any run the sweeps pick a key no more often than its
      popularity above one at the start, plus what files brought in, plus the real lookups of
      that key. */
  lemma PrefetchConservation(c: Config, w0: World, steps: seq<Step>, k: CacheKey)
    requires Start(c, w0)
    ensures Picks(c, w0, steps, k) <= Surplus(At(c, w0, k)) + Brought(steps, k) + Asked(steps, k)
  {
    RunInv(c, w0, steps);
    CountersCount(c, w0, steps, k);
    assert WithinBudget(c, w0, Run(c, w0, steps), k);
  }

  /** The key cannot be picked: it is marked, or not cached. */
  predicate Busy(c: Config, w: World, k: CacheKey)
    requires |w.shards| == SHARD_COUNT
  {
    At(c, w, k).Some? ==> At(c, w, k).value.prefetching
  }

  /** The refresh of the key neither writes nor gives up, and no file is loaded over it. */
  predicate UnderWay(step: Step, k: CacheKey) {
    (step.Release? || step.Write? || step.Load?) ==> step.k != k
  }

  /** A release, a write, or a load that replaces what is cached. */
  predicate Clears(step: Step, k: CacheKey) {
    (step.Release? || step.Write? || (step.Load? && !step.onlyMissing)) && step.k == k
  }

  /** A claim or a pick of the key at step `i` that nothing has cleared since. */
  ghost predicate MarkedAt(c: Config, w: World, steps: seq<Step>, i: nat, k: CacheKey)
    requires |w.shards| == SHARD_COUNT && i < |steps|
  {
    && (steps[i] == Claim(k) || Picked(c, Run(c, w, steps[..i]), steps[i], k))
    && (forall j :: i < j < |steps| ==> !Clears(steps[j], k))
  }

  lemma MarkedAtMore(c: Config, w: World, steps: seq<Step>, step: Step, i: nat, k: CacheKey)
    requires |w.shards| == SHARD_COUNT && i < |steps| && MarkedAt(c, w, steps, i, k) && !Clears(step, k)
    ensures MarkedAt(c, w, steps + [step], i, k)
  {
    assert (steps + [step])[..i] == steps[..i];
  }

  /** Every marker has its refresh: an entry is marked only after a step of the run that
      claimed or picked its key and that no release, write or replacing load has followed.
      So once every refresh that was started has released its key, nothing is marked. */
  lemma {:induction false} MarkedSince(c: Config, w0: World, steps: seq<Step>, k: CacheKey)
    requires Start(c, w0) && Busy(c, Run(c, w0, steps), k) && At(c, Run(c, w0, steps), k).Some?
    ensures exists i: nat :: i < |steps| && MarkedAt(c, w0, steps, i, k)
  {
    assert Guarded(c, w0, k);
    if steps != [] {
      var init, last := steps[..|steps| - 1], steps[|steps| - 1];
      RunInv(c, w0, init);
      assert steps == init + [last];
      MarkedStep(c, Run(c, w0, init), last, k);
      if last == Claim(k) || Picked(c, Run(c, w0, init), last, k) {
        assert steps[..|init|] == init;
        assert MarkedAt(c, w0, steps, |init|, k);
      } else {
        MarkedSince(c, w0, init, k);
        var i: nat :| i < |init| && MarkedAt(c, w0, init, i, k);
        MarkedAtMore(c, w0, init, last, i, k);
      }
    }
  }

  lemma MarkedStep(c: Config, w: World, step: Step, k: CacheKey)
    requires WellFormed(c.hash, c.cap, w.shards)
    requires At(c, Next(c, w, step), k).Some? && At(c, Next(c, w, step), k).value.prefetching
    ensures step == Claim(k) || Picked(c, w, step, k)
            || (!Clears(step, k) && At(c, w, k).Some? && At(c, w, k).value.prefetching)
  {
    StepEffect(c, w, step, k);
    if step.Sweep? && step.shard < SHARD_COUNT {
      SweepPicksExactly(c, w, step.shard, step.p, step.now, step.ahead, k);
    }
  }

  /** The refreshes outstanding: one more for a claim of a key that is free and for a pick,
      one fewer for a release. */
  lemma GuardsExactly(c: Config, w: World, step: Step, k: CacheKey)
    requires WellFormed(c.hash, c.cap, w.shards)
    ensures var free := At(c, w, k).None? || !At(c, w, k).value.prefetching;
            Next(c, w, step).guards[k] ==
            if (step == Claim(k) && free) || Picked(c, w, step, k) then w.guards[k] + 1
            else if step == Release(k) && w.guards[k] > 0 then w.guards[k] - 1
            else w.guards[k]
  {
    if step.Sweep? && step.shard < SHARD_COUNT {
      SweepPicksExactly(c, w, step.shard, step.p, step.now, step.ahead, k);
    }
  }

  predicate Leaves(step: Step, k: CacheKey) {
    (step.ClientLookup? ==> step.k != k) && (step.Load? ==> step.k != k)
  }

  ghost predicate Spent(c: Config, w: World, k: CacheKey)
    requires |w.shards| == SHARD_COUNT
  {
    At(c, w, k).Some? ==> At(c, w, k).value.hits <= 1
  }

  lemma {:induction false} SpentStays(c: Config, w: World, k: CacheKey, steps: seq<Step>)
    requires WellFormed(c.hash, c.cap, w.shards) && Spent(c, w, k)
    requires forall i :: 0 <= i < |steps| ==> Leaves(steps[i], k)
    ensures WellFormed(c.hash, c.cap, Run(c, w, steps).shards) && Spent(c, Run(c, w, steps), k)
    ensures Run(c, w, steps).selections[k] == w.selections[k]
  {
    if steps != [] {
      var init, last := steps[..|steps| - 1], steps[|steps| - 1];
      SpentStays(c, w, k, init);
      var v := Run(c, w, init);
      StepEffect(c, v, last, k);
      if last.Sweep? && last.shard < SHARD_COUNT {
        SweepCounts(c, v, last, k);
      }
    }
  }

  /** After a background refresh has been written, the key is not picked again until a
      client asks for it (or a file is loaded over it), whatever else happens. */
  lemma NotPickedAgainUntilAsked(c: Config, w0: World, before: seq<Step>, k: CacheKey, r: Response, now: int, after: seq<Step>)
    requires Start(c, w0)
    requires forall i :: 0 <= i < |after| ==> Leaves(after[i], k)
    ensures var w := Run(c, w0, before + [Write(k, r, now, true)]);
            Run(c, w, after).selections[k] == w.selections[k]
  {
    RunInv(c, w0, before);
    assert (before + [Write(k, r, now, true)])[..|before|] == before;
    var w := Run(c, w0, before);
    StepEffect(c, w, Write(k, r, now, true), k);
    SpentStays(c, Next(c, w, Write(k, r, now, true)), k, after);
  }

  lemma {:induction false} BusyStays(c: Config, w: World, k: CacheKey, steps: seq<Step>)
    requires WellFormed(c.hash, c.cap, w.shards) && Busy(c, w, k)
    requires forall i :: 0 <= i < |steps| ==> UnderWay(steps[i], k)
    ensures WellFormed(c.hash, c.cap, Run(c, w, steps).shards) && Busy(c, Run(c, w, steps), k)
    ensures Run(c, w, steps).selections[k] == w.selections[k]
  {
    if steps != [] {
      var init, last := steps[..|steps| - 1], steps[|steps| - 1];
      BusyStays(c, w, k, init);
      StepEffect(c, Run(c, w, init), last, k);
      if last.Sweep? && last.shard < SHARD_COUNT {
        SweepPicksExactly(c, Run(c, w, init), last.shard, last.p, last.now, last.ahead, k);
      }
    }
  }

  /** A key that a sweep picked is not picked again while its refresh is under way, however
      often it is asked for, extended, claimed, collected or evicted meanwhile: only a release,
      a write or a load of that very key makes it eligible again. */
  lemma PickedOncePerRefresh(c: Config, w: World, sweep: Step, k: CacheKey, after: seq<Step>)
    requires WellFormed(c.hash, c.cap, w.shards) && sweep.Sweep?
    requires Next(c, w, sweep).selections[k] != w.selections[k]
    requires forall i :: 0 <= i < |after| ==> UnderWay(after[i], k)
    ensures Next(c, w, sweep).selections[k] == w.selections[k] + 1
    ensures Run(c, Next(c, w, sweep), after).selections[k] == w.selections[k] + 1
  {
    StepEffect(c, w, sweep, k);
    if sweep.shard < SHARD_COUNT {
      SweepPicksExactly(c, w, sweep.shard, sweep.p, sweep.now, sweep.ahead, k);
    }
    BusyStays(c, Next(c, w, sweep), k, after);
  }

  /** The total never exceeds the capacity, and what a write pushes out of a full shard is
      the entry of that shard that has gone longest without being touched. */
  lemma EvictsLeastRecentlyUsed(c: Config, w0: World, steps: seq<Step>, k: CacheKey, victim: CacheKey)
    requires Start(c, w0)
    ensures var w := Run(c, w0, steps); Total(w.shards) <= SHARD_COUNT * c.cap
    ensures var w := Run(c, w0, steps);
            var s := w.shards[ShardOf(c.hash, k)];
            Evicted(s, c.cap, k) == Some(victim) ==>
              && |s| == c.cap && Has(s, victim) && victim in w.used
              && forall q :: Has(s, q) && q != victim ==> q in w.used && w.used[victim] < w.used[q]
  {
    RunInv(c, w0, steps);
    var w := Run(c, w0, steps);
    forall i | 0 <= i < |w.shards| ensures |w.shards[i]| <= c.cap {
      assert ShardOk(c.hash, c.cap, w.shards[i], i);
    }
    TotalBound(w.shards, c.cap);
    var i := ShardOf(c.hash, k);
    var s := w.shards[i];
    if Evicted(s, c.cap, k) == Some(victim) {
      GetAt(s, |s| - 1);
      forall q | Has(s, q) && q != victim ensures q in w.used && w.used[victim] < w.used[q] {
        assert s[Find(s, q)].key == q;
      }
    }
  }

  /** A further claim succeeds, beside refreshes already outstanding, exactly when the key has
      no marked entry: it is not cached, or a write or a guard drop has cleared the marker. */
  lemma {:induction false} ClaimSucceedsExactly(c: Config, w0: World, steps: seq<Step>, k: CacheKey)
    requires Start(c, w0)
    ensures var w := Run(c, w0, steps);
            Run(c, w0, steps + [Claim(k)]).guards[k] == w.guards[k] + 1 <==>
            !(At(c, w, k).Some? && At(c, w, k).value.prefetching)
  {
    assert (steps + [Claim(k)])[..|steps|] == steps;
  }

  /** "At most one refresher per key" is not an invariant: a key that is not cached can be
      claimed twice. */
  lemma TwoRefreshersPossible(c: Config, w0: World, k: CacheKey)
    requires Start(c, w0) && At(c, w0, k).None?
    ensures Run(c, w0, [Claim(k)] + [Claim(k)]).guards[k] == 2
  {
    assert [Claim(k)] == [] + [Claim(k)];
    ClaimSucceedsExactly(c, w0, [], k);
    StepEffect(c, w0, Claim(k), k);
    ClaimSucceedsExactly(c, w0, [Claim(k)], k);
  }
}
