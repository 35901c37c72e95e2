# Verified model of the resolver's core

A Dafny model of the parts of this DNS server that carry its hardest promises: the answer
cache under concurrent use and on disk, the race between upstream servers, the domain rule
index, the configuration interpreter, the listener retry machine, and the rewriting of
replies. `dafny verify dfyconfig.toml` checks everything.

## Modules

- `Dns` - records, replies and lifetimes shared by the others.
- `UpstreamRace` - one race over replies in any completion order, ranked choice, two rounds.
- `DomainRules`, `Trie` - the rule index with its label walk, and the suffix trie.
- `SingleFlight` - folding of identical queries as a state machine over its critical sections.
- `Lru`, `Cache`, `CacheStore` - recency lists, what each critical section does, the cache object.
- `CacheRuns`, `CacheRefinement` - every interleaving of those sections, and the proof that the
  object takes exactly these steps.
- `ServeExpired` - what a client gets from the cache and which refreshes that starts.
- `CacheFile`, `CachePersist`, `CodecWitness` - the entry format, salvage of damaged files, save
  and load, and a codec that meets the assumptions.
- `ConfigGroups`, `ConfigLoad`, `PathAnchor` - rule groups, includes, lexical path clean-up.
- `Listeners`, `BindRetry` - removal of duplicate listeners; reloads and retries.
- `Rewriting`, `DualStack`, `Dns64` - CNAME removal, lifetime alignment, IPv4 embedding.

Objects that the program changes in place are classes here, loops are loops; each method is
proved equal to a function of the old state, and the lemmas are about those functions. One
lock-protected section is one step. Time is a number (nanoseconds in the cache, seconds in the
listener machine), the shard hash and the wildcard matcher are arbitrary functions, and the
library codecs (DNS messages, UTF-8, JSON) are arbitrary functions, assumed faithful only on what
the entries at hand hold (`CacheFile.Representable`); `CodecWitness` shows one that is so on all.
What decides an outcome from outside (replies and their order, the speed test, whether a port
opens, which paths exist) is a parameter, so the results hold for all its values.

## Where the code and its own words differ

The model follows the code.

- A truncated reply is called a last resort only, but one that arrives last competes like any
  other (`UpstreamRace.TruncatedCanBeatWhole`; exact condition in `TruncatedLastResortExactly`).
- `mark_prefetching` also succeeds for a key that is not cached, and a write clears the marker
  while a guard is alive, so several refreshers of one key are possible
  (`CacheRuns.TwoRefreshersPossible`).
- Storing a reply sets all sections to the answer minimum and may raise the others
  (`DualStack.InsertRaisesNothingExactly`).
- The comment on the dual-stack merge says that the surviving side "got a real address"; the
  code checks that only when the sibling is the survivor (`DualStack.SurvivorHasAddressExactly`,
  input in `EmptySurvivorTolerated`).
- The comment on the IPv4 embedding names the table of RFC 6052; the /56 row puts the first
  octet into octet 9 instead of octet 7 (`Dns64.MeetsRfcExactly`).
- Stack depth is said to tell whether a line is inside a block; a stray end inside the first of
  several files of one `conf-file -group` breaks that (`ConfigGroups.DepthTellsScopeExactly`,
  files in `ConfigLoad.SettingEscapesItsGroup`).
- An unclosed block is said to count as if ended at the end of the configuration; with two open
  blocks of one name the order of merging differs (`ConfigGroups.UnclosedAsIfClosedExactly`,
  lines in `UnclosedScalarDiffers`).
- Names as keys and the pattern of a one-level wildcard ignore letter case, but the parent of the
  wildcard is compared letter by letter, so a query in other letters can miss it
  (`DomainRules.CaseIrrelevantExactly`).
- The trie answers an insertion under the empty key as if it had replaced a value
  (`Trie.TrieIsMapExactly`).
- A cache entry cut in its last fields is accepted without them
  (`CacheFile.CutEntryAcceptedExactly`).

## Model

| member | source | states |
|---|---|---|
| `SingleFlight.OneLeaderPerKey` | src/dns_mw_cache.rs:548-571 | In every interleaving of arrivals, finishes, wake-ups and drops, a key is in flight exactly while some task leads it; that leader and its channel are unique |
| `SingleFlight.FollowersShareTheLeader` | src/dns_mw_cache.rs:558-575 | A follower that ended has its leader's own outcome, or `NoConnections` after the leader was dropped; one that waits has a leader at work or a value ready, never a dead channel |
| `SingleFlight.NoFollowerStranded` | src/dns_mw_cache.rs:558-570 | Once the leader is gone, the follower's next wake-up ends it with exactly what the leader left behind |
| `SingleFlight.OutcomesAreFinal` | src/dns_mw_cache.rs:649-670 | Whatever happens later, values once sent, tasks once ended and the owners of channels never change |
| `SingleFlight.RunInv` | src/dns_mw_cache.rs:2163-2178 | Every reachable state: an open channel belongs to its active leader and is registered; a closed one holds the leader's outcome, also when the guard of a dropped leader published it |
| `SingleFlight.OutcomesComeFromQueries` | src/dns_mw_cache.rs:548-670 | Whoever ended, leader or follower, ended with what the query of its channel's leader returned in a step of the run taken while it led, or with `NoConnections` after a step that dropped that leader |
| `SingleFlight.QueriesReachEveryone` | src/dns_mw_cache.rs:649-670 | A query that comes back while its task leads is what that task, its channel and everybody who ends on the channel end with, whatever happens later |
| `SingleFlight.DroppedLeaderTellsEveryone` | src/dns_mw_cache.rs:2163-2178 | A dropped leader leaves `NoConnections` for everybody on its channel and frees the key |
| `SingleFlight.ArrivalJoins` | src/dns_mw_cache.rs:548-571 | A task that arrives follows whoever leads the key, and leads it itself when nobody does |
| `SingleFlight.OneTaskPerStep` | src/dns_mw_cache.rs:548-670 | A step changes no task but its own, and a follower that is dropped changes nothing else at all |
| `Cache.EffectiveCacheSize` | src/dns_mw_cache.rs:759-762 | The size is a multiple of 64, at least 64, at least what was configured and less than 64 above it |
| `Lru.PutLaws` | src/dns_mw_cache.rs:1308-1328 | A write is readable at once, keeps the bound and disturbs no key but the evicted one |
| `Lru.UpdateLaws` | src/dns_mw_cache.rs:1300-1318 | Touching an entry changes that entry alone and loses none |
| `Cache.StoredTtl` | src/dns_mw_cache.rs:1258-1289 | At most a day; with answers at most every answer lifetime; without, at most the SOA's own lifetime and its minimum; without an SOA five seconds |
| `Cache.OnlyInItsShard` | src/dns_mw_cache.rs:1088-1095 | In a well-formed cache a key occurs only in the shard its hash selects |
| `Cache.WriteBack` | src/dns_mw_cache.rs:1300-1328 | Writing one shard back keeps the shape and changes no key of another shard |
| `CacheStore.DnsCache.constructor` | src/dns_mw_cache.rs:978-1023 | A new cache is empty, well-formed, and its 64 shards together have the effective size |
| `CacheStore.DnsCache.TotalLen` | src/dns_mw_cache.rs:1683-1691 | Returns the number of entries, which never exceeds the capacity |
| `CacheStore.DnsCache.Get` | src/dns_mw_cache.rs:1334-1355 | A miss exactly when the key is absent; a current entry with its remaining whole seconds rounded up, an expired one as stored; one more hit for that key, nothing else changed |
| `CacheStore.DnsCache.MarkPrefetching` | src/dns_mw_cache.rs:1125-1137 | Succeeds exactly when the key has no marked entry (also when it has none); afterwards the entry, if any, is marked and others are as before |
| `CacheStore.DnsCache.SetValidUntilForPrefetch` | src/dns_mw_cache.rs:1140-1150 | Moves the deadline of that entry later or leaves it, and changes nothing else |
| `CacheStore.DnsCache.DropGuard` | src/dns_mw_cache.rs:2145-2161 | Clears the marker of that entry and changes nothing else |
| `CacheStore.DnsCache.InsertFullResponse` | src/dns_mw_cache.rs:1248-1332 | Readable at once, current, unmarked, with the stated deadline and popularity; the only other key that can change is the last of that full shard, and only when the key was new |
| `CacheStore.DnsCache.GetExpired` | src/dns_mw_cache.rs:1358-1447 | Marks exactly the eligible entries of every shard, takes one from their popularity, and returns their keys, each once per selection, most popular first, with the least remaining lifetime of the entries that wait, at most a day |
| `Cache.NotDueBeforeWakeExactly` | src/dns_mw_cache.rs:1384-1406 | A popular entry left for later cannot be due before the wake-up exactly when expired answers are served, or the wake-up precedes its deadline by the margin |
| `CacheStore.SortByHits` | src/dns_mw_cache.rs:1442-1445 | A permutation of the selected keys in falling popularity |
| `CacheStore.DnsCache.PurgeDeadRecords` | src/dns_mw_cache.rs:1152-1177 | Every shard keeps exactly its entries that are not dead, and the count returned plus what remains is what was there |
| `CacheStore.DnsCache.CachedRecordsPaginated` | src/dns_mw_cache.rs:1179-1246 | The page is the slice of the concatenated shards; at most offset + limit + 1 entries are visited, none when the offset is past the end or the limit is zero |
| `CacheStore.PagesPartition` | src/dns_mw_cache.rs:1179-1246 | Successive pages give every entry of the listing exactly once, in order |
| `CacheStore.DnsCache.Clear` | src/dns_mw_cache.rs:1119-1123 | Afterwards no key is found |
| `CacheRuns.StepEffect` | src/dns_mw_cache.rs:1125-1332 | What each step may do to the entry under any one key; a step on one key changes another key only by evicting it |
| `CacheRuns.SweepCounts` | src/dns_mw_cache.rs:1374-1437 | A sweep counts a key exactly when it marks it and takes one from a popularity of at least two |
| `CacheRuns.SweepPicksExactly` | src/dns_mw_cache.rs:1374-1437 | By the fields of the entry: a sweep picks a key exactly when it is unmarked, asks for an address, was asked for twice and is past its deadline by the waiting time, or within the margin before it when nothing expired is served |
| `CacheRuns.PickedOncePerRefresh` | src/dns_mw_cache.rs:1374-1377 | A picked key is not picked again, in any run, before a release, a write or a load of that key |
| `CacheRuns.NoStuckMarker` | src/dns_mw_cache.rs:2145-2161 | In every reachable state a marked entry has an outstanding refresh of its key, so with none outstanding nothing is marked |
| `CacheRuns.MarkedSince` | src/dns_mw_cache.rs:2145-2161 | A marked entry was claimed or picked by a step of the run that no release, write or replacing load of its key has followed |
| `CacheRuns.GuardsExactly` | src/dns_mw_cache.rs:1125-1137 | Outstanding refreshes of a key: one more for a claim while it is free and for a pick, one fewer for a release |
| `CacheRuns.PrefetchConservation` | src/dns_mw_cache.rs:1374-1437 | Over any run the sweeps that find a key due are no more than its initial popularity above one, plus what files brought in, plus the client lookups of it in that run |
| `CacheRuns.NotPickedAgainUntilAsked` | src/dns_mw_cache.rs:1308-1318 | After a background write a key is not selected again before a client asks for it or a file is loaded over it |
| `CacheRuns.EvictsLeastRecentlyUsed` | src/dns_mw_cache.rs:1088-1095 | In every reachable state the total is within capacity, and what a write evicts is the entry of that one full shard that was touched longest ago |
| `CacheRuns.ClaimSucceedsExactly` | src/dns_mw_cache.rs:1125-1137 | A further claim succeeds exactly when the key has no marked entry |
| `CacheRuns.TwoRefreshersPossible` | src/dns_mw_cache.rs:1125-1137 | "At most one refresher per key" is false: an uncached key can be claimed twice |
| `CacheRefinement.Perform` | src/dns_mw_cache.rs:1125-1332 | Each critical section of the cache object is the step of the concurrent model, and a claim reports success exactly when the model gains a guard |
| `CacheRefinement.PerformAll` | src/dns_mw_cache.rs:1125-1332 | After any sequence of such sections: within capacity, and nothing marked when no refresh is outstanding |
| `ServeExpired.AnswerFromCache` | src/dns_mw_cache.rs:413-546 | A fresh entry is served with its remaining time; stale data only when allowed, with lifetimes of at most the reply limit; refreshes are started exactly when the entry was unclaimed; claimed entries are marked and extended, and apart from the hit nothing else changes |
| `ServeExpired.StartRefresh` | src/dns_mw_cache.rs:439-488 | The key and, for addresses, its sibling are claimed and extended; keys that were not claimed are untouched |
| `ServeExpired.ToRefreshExactly` | src/dns_mw_cache.rs:439-488 | Key by key: the asked key exactly when nobody refreshes it, the other family exactly when the question is for an address, the asked key is refreshed and nobody refreshes the other; nothing else |
| `ServeExpired.StalenessUnbounded` | src/dns_mw_cache.rs:438-497 | For every bound there is a run of stale answers, each asked for once the deadline before has passed and each extending it by the reply lifetime, that leaves the same data current past its original deadline plus the bound |
| `ServeExpired.DeadlineStays` | src/dns_mw_cache.rs:1125-1332 | The other half: without an extension, a write or a load of the key its deadline and data never change; the entry can only disappear |
| `CodecWitness.ExampleRepresents` | src/dns_mw_cache.rs:1961-2112 | One codec represents every entry whose texts, options and popularity fit the format |
| `CodecWitness.RestartOccurs` | src/dns_mw_cache.rs:1449-1681 | The situation of the save-and-load theorems occurs around every saveable entry, for any hash, capacity and downtime |
| `CacheFile.EntryRoundTrip` | src/dns_mw_cache.rs:1961-2112 | An emitted entry reads back with message, group, subnet, options and popularity, its deadline re-based, and the reader stops exactly behind it, whatever follows |
| `CacheFile.DeserializeBestEffort` | src/dns_mw_cache.rs:1734-1755 | Terminates on every byte string with every reader and returns what the recursive reading gives |
| `CacheFile.SalvageKeepsWholeEntries` | src/dns_mw_cache.rs:1734-1755 | Cut anywhere, a file gives back every entry that lies wholly before the cut, unchanged, in order, in front; uncut it is read completely without complaint |
| `CacheFile.DamageEndsReading` | src/dns_mw_cache.rs:1734-1755 | Entries in front of damaged bytes come back, in order, nothing behind the damage does, and the damage is reported |
| `CacheFile.CutEntryAcceptedExactly` | src/dns_mw_cache.rs:2064-2108 | An entry cut short is accepted exactly when the cut lies between the end of its popularity field and the end of its subnet field, and then with default options and perhaps no subnet |
| `CachePersist.HeaderRoundTrip` | src/dns_mw_cache.rs:1711-1728 | The header parses back to version and count and leaves the payload |
| `CachePersist.PersistCache` | src/dns_mw_cache.rs:1449-1531 | Writes the header and then every entry of every shard in recency order |
| `CachePersist.LoadCache` | src/dns_mw_cache.rs:1544-1681 | The cache object ends as the fold of loading the salvaged entries in file order; an unknown version changes nothing, a file without header is read in the old format |
| `CachePersist.DeadlineAfterRestart` | src/dns_mw_cache.rs:1628-1639 | A deadline after a restart is the save time plus the whole seconds left, or minus those since death, however long the program was down |
| `CachePersist.DeadlineBounds` | src/dns_mw_cache.rs:1628-1639 | A live deadline never moves later and moves earlier by less than a second when at most a day was left; a dead one never comes back past the save time |
| `CachePersist.RoundTripShards` | src/dns_mw_cache.rs:1449-1681 | Saving and loading gives every shard back with the same entries in reversed recency order |
| `CachePersist.RoundTripMap` | src/dns_mw_cache.rs:1449-1681 | Saving and loading gives the same map from keys to messages, popularity, subnet and options |
| `CachePersist.OtherVersionIgnored` | src/dns_mw_cache.rs:1579-1599 | A file that declares another version changes nothing |
| `CachePersist.OldFormatLoaded` | src/dns_mw_cache.rs:1544-1681 | A file without header is loaded from its first byte, on top of what the cache holds |
| `CachePersist.CutFileLoaded` | src/dns_mw_cache.rs:1734-1755 | A file cut anywhere behind its header loads first, in order, every entry wholly before the cut |
| `CachePersist.LoadedEntry` | src/dns_mw_cache.rs:1628-1660 | One loaded entry is found under its key with its deadline moved back by the downtime, unless only missing keys are wanted and the key is there |
| `UpstreamRace.PickBest` | src/dns_client.rs:650-677 | The first reply of minimal rank among the candidates; without any reply the set-aside truncated one; without that the first error |
| `UpstreamRace.RaceServers` | src/dns_client.rs:443-494 | For every completion order: the first conclusive reply, or the final choice over what was held and the last reply |
| `UpstreamRace.RaceOutcome` | src/dns_client.rs:443-494 | Over all orders of the same replies: conclusive exactly when some server is, an error exactly when all err, and otherwise no whole reply outranks the result |
| `UpstreamRace.ConclusiveExactly` | src/dns_client.rs:612-635 | A reply ends the race exactly when it is whole and brings answers under NOERROR, or denies the name with an SOA in some section |
| `UpstreamRace.FirstConclusiveWins` | src/dns_client.rs:463-475 | The first conclusive reply is returned, whatever was waiting and whatever is still to come |
| `UpstreamRace.RanksFollowKinds` | src/dns_client.rs:571-599 | Trust is ordered by kind: answers, empty with SOA, empty without, denial with SOA, denial without, any other code; replies of one kind are equal |
| `UpstreamRace.BareDenialNeverBeatsAnswers` | src/dns_client.rs:455-475 | When some server gives whole answers, every completion order returns whole answers or a whole denial with SOA |
| `UpstreamRace.BestKindReturned` | src/dns_client.rs:650-677 | Without a conclusive reply, no whole reply of any server is of a better kind than the result |
| `UpstreamRace.LastResorts` | src/dns_client.rs:650-677 | With nothing whole and an error last: the truncated reply that came first, and without one the error that came first |
| `UpstreamRace.OrderIrrelevantExactly` | src/dns_client.rs:469-487 | The rank of the result is independent of completion order exactly when the replies are order-safe: same-ranked conclusive ones, or a whole reply not outranked by a truncated one |
| `UpstreamRace.TruncatedLastResortExactly` | src/dns_client.rs:469-487 | With a whole reply among them and none conclusive, every completion order returns a whole reply exactly when some whole reply ranks at least as well as every truncated one |
| `UpstreamRace.TruncatedCanBeatWhole` | src/dns_client.rs:476-487 | "A truncated reply is only the last resort" is false: arriving last it beats a whole reply |
| `UpstreamRace.Lookup` | src/dns_client.rs:503-542 | For every split and every order in both rounds: conclusive exactly when some server of the group is; fallbacks asked exactly when the first round was not conclusive; an error exactly when the whole first round erred and no fallback was conclusive; the second round decides only when it alone is conclusive |
| `UpstreamRace.RoundMembers` | src/dns_client.rs:512-526 | The replies of the two rounds together are, with multiplicity, the replies of all servers of the group, and the first round is empty only for an empty group |
| `UpstreamRace.RoundsFollowFlags` | src/dns_client.rs:512-526 | While there is a normal server the fallback servers take no part in the first round; when there is none they are asked at once |
| `DomainRules.DomainMap.Insert` | src/collections.rs:95-107 | The rule is stored fully qualified under its case-folded key, the old value is returned, and the wildcard index stays exact |
| `DomainRules.DomainMap.Remove` | src/collections.rs:110-118 | The rule leaves map and wildcard index, the old value is returned |
| `DomainRules.DomainMap.FromIter` | src/collections.rs:131-146 | Bulk construction stores the names as given and keeps the wildcard index exact |
| `DomainRules.PutAllHolds` | src/collections.rs:131-146 | Bulk construction holds exactly the given names, dot or no dot, each with the value that came last |
| `DomainRules.DomainMap.Find` | src/collections.rs:17-77 | The label walk ends and answers with the value of the rule a full scan chooses, and with nothing exactly when no rule applies |
| `DomainRules.WinnerUnique` | src/collections.rs:17-77 | The scan by specificity has at most one winner |
| `DomainRules.LookupDetermined` | src/collections.rs:17-77 | The scan allows one answer for a lookup |
| `DomainRules.ReplayHolds` | src/collections.rs:95-118 | After any history the map holds the last value written under each key and the index lists exactly the one-level wildcards in the map |
| `DomainRules.LookupAfterHistory` | src/collections.rs:17-118 | After any history a lookup gives the last value written under the most specific live rule, and nothing exactly when no live rule covers the name |
| `DomainRules.KeySameExactly` | hickory-dns/crates/proto/src/rr/domain/name.rs:1131-1150 | Two rule names are one key exactly when kind, pattern and final dot agree and the labels agree letter by letter but for ASCII capitals |
| `DomainRules.CoversExactly` | src/collections.rs:31-63 | A rule covers a name exactly when its labels are the tail of the name but for capitals, with as many labels in front as its kind allows |
| `DomainRules.PrecedenceExactly` | src/collections.rs:31-63 | Between covering rules an undotted name goes first, then the longer name, then full, wildcard, suffix, default |
| `DomainRules.EverySpellingAnswered` | src/collections.rs:17-107 | After any history an inserted full rule, or a default rule where no full rule of the name is live, answers the name in every spelling, with or without the final dot |
| `DomainRules.StarAsksForParent` | src/collections.rs:21-25 | Looking up `*.name` is looking up the name itself |
| `DomainRules.LaterRuleNeverDisplaces` | src/collections.rs:42-52 | Among the wildcards of one parent the one inserted first is asked first: a later insertion never displaces the first hit |
| `DomainRules.IndexAgreesWithMatchExactly` | src/config/domain.rs:32-46 | The index and `is_match` agree on a rule exactly when it is a default rule or not spelled in other letters than the name: the index ignores case, `is_match` does not |
| `DomainRules.WalkIsMatchScan` | src/config/domain.rs:32-46 | On lower-case histories a live rule takes part in a lookup exactly when it matches the name |
| `DomainRules.ListedWildcardHitExactly` | src/config/domain.rs:32-46 | For every name but the root a listed one-level wildcard is hit exactly when it matches the name as spelled: its parent is the rest of the name letter by letter, and its pattern is empty or accepts the first label |
| `DomainRules.CaseIrrelevantExactly` | src/collections.rs:17-77 | A name is answered by the same rule as its lower-case form exactly when a rule for the name itself exists, or both have the same first wildcard hit |
| `DomainRules.LookupIgnoresCase` | src/collections.rs:17-77 | Under that condition the lookup gives the same answer |
| `Trie.TrieMap.Insert` | src/collections.rs:209-220 | Stores under a non-empty key and returns the previous value; for the empty key stores nothing and returns the given value |
| `Trie.GetInserted` | src/collections.rs:286-311 | An insertion is seen under its key and under no other |
| `Trie.TrieIsMapExactly` | src/collections.rs:209-231 | The trie answers like a map exactly on the keys that are non-empty or not in the map |
| `Trie.TrieCountsKeys` | src/collections.rs:260-262 | Its length is the number of distinct non-empty keys inserted |
| `Trie.LenInserted` | src/collections.rs:360-363 | An insertion raises the length by one exactly when the key was not stored |
| `ConfigGroups.DepthTellsScopeExactly` | src/dns_conf.rs:2150-2152 | Stack depth above one means inside an explicit block, at every point, exactly when no group frame is pushed onto an empty stack |
| `ConfigLoad.SettingEscapesItsGroup` | src/dns_conf.rs:2492-2513 | The exception is reached by files: in the second file of a `conf-file -group` a setting inside the block goes to the global settings after a stray end in the first |
| `ConfigGroups.GlobalsFromTopLevelOnly` | src/dns_conf.rs:2154-2265 | The global settings are the settings written outside every block, applied in order; nothing else touches them |
| `ConfigGroups.SettingInBlock` | src/dns_conf.rs:2175-2183 | A setting inside a block goes to the frame of the innermost block and leaves the globals alone |
| `ConfigGroups.HeldStep` | src/dns_conf.rs:2313-2415 | Conservation: a line adds to a group exactly the rule it writes or the rules a new block starts with |
| `ConfigGroups.BlockStartsWith` | src/dns_conf.rs:2082-2143 | A new block starts with exactly the rules and scalars of the block around it for `parent` and for a nested block that does not say, of the named group as closed so far, of the lines outside every block for `default`, or with nothing |
| `ConfigGroups.FinishedGroupsExactly` | src/dns_conf.rs:2082-2143 | With inheritance a finished group holds, with multiplicity, exactly the rules written in blocks of its name and those its blocks started with |
| `ConfigGroups.RuleInBlock` | src/dns_conf.rs:2313-2415 | A rule goes behind the rules so far of the innermost block |
| `ConfigGroups.BlockClosed` | src/dns_conf.rs:2596-2601 | Closing appends the rules of the block to its group and fills in the scalars the group lacks; no other group changes |
| `ConfigGroups.UnscopedKept` | src/dns_conf.rs:2154-2265 | Server, proxy and set lines are all kept, in order, wherever they stand |
| `ConfigGroups.FinishedGroups` | src/dns_conf.rs:1578-1589 | Every rule line ends in the group of its innermost open block; a rule is in a group only when written there or in a group it inherits from, transitively; without inheritance each is there exactly as often as written |
| `ConfigGroups.ClosedGroupsOnlyGrow` | src/config/rule_group.rs:196-205 | A merged group keeps its rules in front and its scalars unchanged whatever follows, so the first block of a name that sets a scalar decides |
| `ConfigGroups.UnclosedAsIfClosedExactly` | src/dns_conf.rs:1578-1589 | For the open blocks of every configuration: appending the missing ends gives the same groups whatever else was read exactly when no two open frames share a name |
| `ConfigGroups.UnclosedScalarDiffers` | src/dns_conf.rs:1578-1589 | Two unclosed nested blocks of one name with `rr-ttl` 1 and 2: the build keeps 1, written ends would keep 2 |
| `ConfigGroups.MissingEndsHarmless` | src/dns_conf.rs:1578-1589 | With different names, appending the missing ends gives the same groups |
| `ConfigGroups.ClientsJoinInnermost` | src/dns_conf.rs:2602-2611 | A client rule without a group belongs to its innermost open block |
| `ConfigLoad.ConfBuilder.GroupBegin` | src/dns_conf.rs:2082-2143 | The new frame starts from what the inheritance option names: outer frame, default group or an already defined group |
| `ConfigLoad.ConfBuilder.ConfigPlain` | src/dns_conf.rs:2154-2265 | One line without include changes the builder as the interpretation says |
| `ConfigLoad.ConfBuilder.ConfigLine` | src/dns_conf.rs:2474-2519 | One line with all its includes runs exactly the operations of the include expansion |
| `ConfigLoad.ConfBuilder.LoadResolvedFile` | src/dns_conf.rs:1947-2009 | Terminates on every include graph; runs the operations of the file with its includes in place |
| `ConfigLoad.ConfBuilder.FinishGroups` | src/dns_conf.rs:1578-1589 | Blocks left open are merged bottom to top |
| `ConfigLoad.FileParsedOnce` | src/dns_conf.rs:1947-1968 | Each canonical file is parsed at most once and only if new, and all that a parsed file includes is loaded too |
| `ConfigLoad.EveryLineOnce` | src/dns_conf.rs:1947-2009 | Loading runs exactly the lines of the files it enters, each as often as it is there, those of each file in order |
| `ConfigLoad.LoadedScopesSound` | src/dns_conf.rs:2474-2519 | With one file per `conf-file -group`, depth tells the scope throughout any load and the globals come from lines outside every block |
| `PathAnchor.AnchorPath` | src/dns_conf.rs:221-255 | The loop computes the anchored path |
| `PathAnchor.NormalizedIdempotent` | src/dns_conf.rs:234-254 | Clean-up is idempotent and leaves no `.` and no name undone by a later `..` |
| `PathAnchor.NormalizedKeepsMeaning` | src/dns_conf.rs:234-254 | The clean path leads to the same place from every directory |
| `PathAnchor.AnchoredMeaning` | src/dns_conf.rs:221-255 | An anchored path leads where the raw one leads from the base, and does not depend on the working directory when the base is absolute |
| `PathAnchor.CleanFormDecides` | src/dns_conf.rs:234-254 | Two relative paths have one clean form exactly when they mean the same from everywhere |
| `PathAnchor.AbsoluteFormsAgreeExactly` | src/dns_conf.rs:234-254 | Absolute paths of one meaning have one clean form exactly when as many steps up from the root remain in both |
| `PathAnchor.RootParentKept` | src/dns_conf.rs:234-254 | The root and the parent of the root mean the same and keep different clean forms |
| `Listeners.DedupBinds` | src/dns_conf.rs:1743-1767 | Removing by collected positions keeps exactly the listeners not followed by another on their socket, in order |
| `Listeners.DedupMeaning` | src/dns_conf.rs:1743-1767 | No two kept listeners share a socket, each socket asked for is still served, by its last listener |
| `Listeners.KeptExactly` | src/dns_conf.rs:1743-1767 | A listener is kept exactly when no later one takes the same address on the same kind of port |
| `Listeners.OrderKept` | src/dns_conf.rs:1743-1767 | Kept listeners stay in the configured order |
| `BindRetry.Backoff` | src/app.rs:531-536 | The wait is between one second and a minute |
| `BindRetry.BackoffDoubles` | src/app.rs:531-536 | The first wait is one second, each further one twice the last, cut at a minute |
| `BindRetry.App.UpdateListeners` | src/app.rs:205-324 | A reload closes exactly what is no longer configured and tries exactly what is configured, not listening and not refused; no server leaks or is replaced while alive |
| `BindRetry.App.RetryPendingBindsAt` | src/app.rs:369-452 | A heartbeat gives up due listeners no longer configured and tries the other due ones, in any order with the same result |
| `BindRetry.BeatAllIsBeat` | src/app.rs:385-452 | The order in which due listeners are taken makes no difference |
| `BindRetry.ReloadExactly` | src/app.rs:205-324 | For any one listener: when a reload leaves it listening or queued, and with which failure count and times |
| `BindRetry.HeartbeatExactly` | src/app.rs:369-452 | For any one listener: a heartbeat before its time changes nothing; after it, it is forgotten, opened, or waits longer |
| `BindRetry.EveryListenerAccountedFor` | src/app.rs:205-452 | In every reachable state each configured listener is listening, queued or refused, none both listening and queued, and retries are at most a minute off |
| `BindRetry.RecoversWithinAMinute` | src/app.rs:369-452 | A heartbeat a minute after the last failure opens a configured listener whose port is free and forgets one no longer configured |
| `BindRetry.RetriesArePaced` | src/app.rs:504-536 | Without reloads the n-th failure comes no earlier than the first plus the backoffs, from the seventh on 63 + 60 (n - 7) seconds |
| `BindRetry.WaitedClosedForm` | src/app.rs:531-536 | The backoffs before the n-th failure add up to 63 + 60 (n - 7) seconds for n of at least seven |
| `BindRetry.GapsKeptExactly` | src/app.rs:312-362 | Over any run of reloads and heartbeats every further failure comes after its backoff exactly when no reload fails to open the listener before its time |
| `BindRetry.FailuresPacedAcrossReloads` | src/app.rs:369-452 | With any number of reloads, none failing early, the n-th failure in a row comes no earlier than the first plus the backoffs, from the seventh on 63 + 60 (n - 7) seconds |
| `BindRetry.EarlyReloadBreaksPace` | src/app.rs:312-362 | The same configuration loaded twice at one instant makes two failures at that instant |
| `Rewriting.Reply.FlattenCname` | src/dns_mw_cache.rs:340-367 | The in-place edit gives the flattened reply |
| `Rewriting.Reply.StripCname` | src/dns_mw_force_no_cname.rs:61-110 | The in-place edit gives the stripped reply |
| `Rewriting.RemoversAgreeExactly` | src/dns_mw_force_no_cname.rs:61-110 | On an address query the two removers agree exactly when there is a CNAME, no address, or nothing to rewrite |
| `Rewriting.RemoversIdempotent` | src/dns_mw_cache.rs:340-367 | Both are idempotent; stripping after flattening changes nothing and flattening after stripping is flattening |
| `Rewriting.PayloadsKept` | src/dns_mw_cache.rs:340-367 | Neither loses, adds or reorders an answer of the type asked for |
| `Rewriting.OnlyAnswersChange` | src/dns_mw_force_no_cname.rs:61-110 | Both touch the answer section alone; outside address queries flattening changes nothing and stripping keeps every record that is no CNAME, in order |
| `Rewriting.NoAnswerTtlRises` | src/dns_mw_cache.rs:340-367 | Every answer comes from an original one and lives no longer; after rewriting no answer outlives any original answer |
| `Rewriting.StripLeavesCnameExactly` | src/dns_mw_force_no_cname.rs:61-110 | Stripping never empties the answers and leaves a CNAME exactly when nothing else would answer the question |
| `Rewriting.DirectShape` | src/dns_mw_cache.rs:353-364 | Rewritten answers are of the type and name asked for, with the shortest original lifetime, and never none |
| `DualStack.AlignedIsShortest` | src/dns_mw_dualstack.rs:352-362 | The aligned lifetime is the shortest of any record of both families, or the fallback when there is none |
| `DualStack.ProcessResponse` | src/dns_mw_dualstack.rs:277-307 | The in-place edit gives the washed reply |
| `DualStack.Handle` | src/dns_mw_dualstack.rs:180-330 | An error exactly when the own lookup failed and the sibling brought no address; otherwise both replies washed with one lifetime; marked suppressed exactly when the duel blocked AAAA; never both families blocked |
| `DualStack.LoserGivesUpAnswers` | src/dns_mw_dualstack.rs:243-305 | AAAA gives up its answers exactly when A won, A exactly when AAAA won and may; the loser carries an SOA; without a loser all answers stay, in order |
| `DualStack.ForgedLifetime` | src/dns_mw_dualstack.rs:294-304 | A loser or an empty reply that brings no SOA is cached for the aligned lifetime, at most a day |
| `DualStack.WashedHasLifetimeExactly` | src/dns_mw_dualstack.rs:277-307 | A washed reply has answers or an authority SOA exactly when the original kept its answers, had one, or qualified for a forged one |
| `DualStack.StoredWithinExactly` | src/dns_mw_cache.rs:1258-1289 | A reply of uniform lifetime is stored no longer than that exactly when it has answers, an authority SOA, or lives five seconds |
| `DualStack.PreparedWithinExactly` | src/dns_mw_dualstack.rs:277-307 | A washed and flattened reply is stored no longer than the aligned lifetime exactly when it has a lifetime to go by, or the aligned one is five seconds or more |
| `DualStack.ServedTtlNeverExceedsExactly` | src/dns_mw_dualstack.rs:277-362 | From alignment over flattening and insertion to any later valid hit, no served lifetime exceeds that of any record of either original reply exactly when the reply kept answers or an authority SOA, or the shortest lifetime is five seconds or more |
| `DualStack.SurvivorHasAddressExactly` | src/dns_mw_dualstack.rs:183-316 | After one failed lookup an address is left in the pair exactly when the survivor did not lose the duel and is the sibling, or is the own reply and has an address |
| `DualStack.EmptySurvivorTolerated` | src/dns_mw_dualstack.rs:183-212 | An own reply without records is passed on, with no address left, when the sibling lookup fails; the same reply of the sibling is not |
| `DualStack.NegativeBoundedBySoaMinimum` | src/dns_mw_cache.rs:1265-1287 | A negative reply is served no longer than its SOA minimum (section 5 of RFC 2308) |
| `DualStack.InsertRaisesNothingExactly` | src/dns_mw_cache.rs:1258-1298 | Answers are never raised; the other sections are left unraised exactly when each of their records outlives the shortest answer, without answers the SOA and its minimum, without an SOA five seconds |
| `DualStack.InsertCanRaise` | src/dns_mw_cache.rs:1258-1298 | A reply whose authority record is raised by insertion |
| `Dns64.ToDns64` | src/dns_mw_dns64.rs:182-221 | Accepts exactly the six lengths; the IPv4 octets stand in their slots, reserved octets are zero, all others are those of the network |
| `Dns64.PrefixKept` | src/dns_mw_dns64.rs:182-221 | The prefix survives and octet 8 is zero below /96 |
| `Dns64.Recoverable` | src/dns_mw_dns64.rs:182-221 | The IPv4 address can be read back |
| `Dns64.EmbeddingUnique` | src/dns_mw_dns64.rs:182-221 | The description determines the address |
| `Dns64.MeetsRfcExactly` | src/dns_mw_dns64.rs:186-217 | The address is that of section 2.2 of RFC 6052 exactly when nothing is set behind the prefix and, for /56, the IPv4 address is 0.0.0.0 |
| `Dns64.RfcReaderRecoversExactly` | src/dns_mw_dns64.rs:202-207 | A translator following the standard recovers the IPv4 address exactly outside /56, or when it is 0.0.0.0 |
| `Dns64.SynthesiseAnswers` | src/dns_mw_dns64.rs:154-168 | Every A record becomes the AAAA record of its embedded address with the same name and lifetime, all others stay, in order |
| `Dns64.AddressSynthesised` | src/dns_mw_dns64.rs:154-168 | An A record of any four octets is synthesised, a record of another type never is |
| `Dns64.Handle` | src/dns_mw_dns64.rs:112-176 | A real or deliberately suppressed AAAA result is returned as it is; otherwise the A reply is synthesised, and without one the original result is returned |

## Left out

- Sockets, TLS, QUIC, HTTP, DHCP, the message codec, JSON and UTF-8: library code, entered as parameters.
- Timers, task scheduling, semaphores and probes: steps may come in any order, the speed test gives any verdict.
- File renaming, archiving, retries and permissions when saving; `persist_action`: easy or effects on the file system.
- Logs, audit, hosts and dnsmasq data, the API, the command line, getters that try group before global.
- Parsing of configuration lines: the interpreter starts from parsed items. The six kinds of rules are one tagged list, list-valued global settings are not distinguished from scalar ones, fatal errors only stop the build.
- Access control and the exposure check itself: which listeners it refuses is a parameter.
- The answers for `ipv4only.arpa.` and the copying of client subnets into queries.
- CacheStore.DnsCache.PurgeDeadRecords: the code collects the dead keys of a shard and then removes them under the same lock; here that is one pass.
- CacheStore.DnsCache.GetExpired: the code also guards against one key in several shards, which cannot occur.
- CachePersist.RoundTripMap: all entries are read at the instant loading begins; `DeadlineAfterRestart` gives the shift by any delay of reading. An entry is saveable when its texts are non-empty and, like the options, under 65536 bytes, its popularity is under 2^32, and its group is stored.
- CachePersist.LoadCache: archiving a damaged file and re-reading the clock for each entry are not modelled.
- CachePersist.PersistCache: all shards are saved at one instant; the program locks one shard at a time, so writes between shards are not modelled.
- CacheFile.CutEntryAcceptedExactly: assumes that a subnet text is under 1792 bytes and does not start with the byte 7, which holds for every address with a prefix length.
- CacheStore.DnsCache.CachedRecordsPaginated: counting and paging see one state; the program lets go of each shard in between.
- ServeExpired.AnswerFromCache: the locked sections of one query follow each other directly; `CacheRuns` has every interleaving of them. Sending the refresh query is outside; its end is a release step.
- BindRetry.App.UpdateListeners: all attempts of one reload share one instant, and the failure counter does not overflow.
- DomainRules.DomainMap.Find: pattern matching within a label is an arbitrary function.
- Trie: `degree`, the longest path, would only add an easy member.
- ConfigLoad.ConfBuilder.LoadResolvedFile: a file that exists but cannot be read is not modelled; it counts as loaded and contributes nothing.
- PathAnchor.AnchorPath: drive prefixes are not modelled.
- Dns64.Handle: a query without a question section is not modelled.
