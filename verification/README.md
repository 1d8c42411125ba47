# utils-go: a verified model

A Dafny 4.11 model of the parts of `utils-go` that carry the most logic, with proofs. `dafny verify dfyconfig.toml`
checks everything.

| file | what it models |
|---|---|
| `Tickers.dfy` | the shared ticker of `asynccache` as a step machine: mutex, registered caches, one-slot stop channel, tick goroutines |
| `CacheRaces.dfy` | one cache at the grain of single atomic loads and stores: Get, GetOrSet, singleflight, refresh, deletion, all interleaved |
| `CacheRefinement.dfy` | a call of that machine that runs alone against the cache's method |
| `AsyncCache.dfy` | the cache's methods on entry objects, each method one step, and the second-chance expiry rule over every history |
| `Decimal.dfy` | printing the smallest unit as a UI amount, and the two parsers that read it back |
| `BridgeFee.dfy` | the rounded bridge fee and its two tier selectors |
| `Dtc.dfy` | the tiered flat fee, charged inside an amount or quoted on top of it |
| `Routes.dfy` | route and fee segment indexes, range and segment matching, fee calculation, choice of the best route |
| `Tlv.dfy` | the scan of Token-2022 mint extensions |
| `Address.dfy` | the two 64-digit checksum encodings |
| `LpInfo.dfy`, `NodeInfo.dfy` | the five-level LP index; the sorted node lists |
| `Alerter.dfy` | the per-group lazy alert timer |
| `Text.dfy` | options, ASCII string helpers, map iteration |

Concurrency is a labelled step relation: a run is any list of enabled steps from the initial state, a blocking
operation is a step that is not enabled, and the results are about every run. Code that updates fields or arrays in
place is a class or a method with `modifies`, proved against a function on the abstract value. The database rows, the
clock, the Fetcher, the hash functions and the value an unparsed `big.Rat` is left with are parameters. Rationals are
Dafny `real`s; big integers are unbounded, and `Div`/`Mod` are Euclidean as in `math/big`.

Findings, each with a concrete run or an exact condition below:

- Closing a cache twice while no cache is registered buffers a stop token that later ends the only tick loop of another,
  still open cache (`SecondCloseStopsAnotherCache`). The loops of registered caches can all stop by themselves exactly
  when a token was sent while no loop was started (`LoopsLostExactly`).
- Opening and closing two caches once each can deadlock the ticker: the second Close sends into the still full stop channel
  while it holds the mutex that every tick loop waits for (`DeadlockClosingOnce`). Nothing can move in exactly those states
  (`DeadlockedExactly`).
- `Get` loads the value before the error, so it can return a failed fetch's value with no error (`TornGet`): exactly when
  both stores of the refresh that ends the error fall between the two loads (`TornExactly`). `GetOrSet` loads them in the
  other order and cannot (`GetOrSetAnswer`), and a miss cannot either (`MissedGetAnswer`).
- The comment at asynccache/asynccache.go:180 says GetOrSet sets the default when fetching failed. A call that missed and whose
  flight's fetch fails gets its default exactly when the flight was led with that same default (`GetOrSetAnswer`): joining a
  `Get` it gets the failed value (`DefaultLostByJoining`), joining another GetOrSet that caller's default
  (`OtherDefaultByJoining`).
- The two bridge fee selectors agree for all thresholds exactly when no later level has a higher ratio; the two dtc paths agree
  for all bounds exactly when the fees never fall, and the reverse direction fails exactly inside the gaps between levels.
- `GetMinValueIncludeGasFee` is least without any condition on the amounts, as long as the fees never fall.
- `util.FromUiString` and the route code convert the same literal differently exactly when it is negative and loses digits.

## Model

| member | source | states |
|---|---|---|
| Tickers.TokenConservation | asynccache/asynccache.go:104-144 | in every run of any opens, closes and tick loops: never more than two live loops; whenever the mutex is free, live loops plus redundant tokens equal buffered tokens plus one if started, and started holds exactly when a cache is registered |
| Tickers.LoopsLostExactly | asynccache/asynccache.go:271-290 | with caches registered and the mutex free, the tick loops alone can run to a state with no loop left exactly when some stop token was sent while no loop was started |
| Tickers.DeadlockedExactly | asynccache/asynccache.go:242-247 | in every reachable state no step is possible if and only if a Close that emptied the cache set is about to send into the full stop channel and every live loop waits for the mutex |
| Tickers.DeadlockClosingOnce | asynccache/asynccache.go:242-247 | a run in which no cache is closed twice that ends in such a state |
| Tickers.OpenCacheHasLoop | asynccache/asynccache.go:132-142 | if no cache is closed twice, an open cache is registered at every moment of every run and one more loop is alive than there are stop tokens |
| Tickers.QuietAfterClose | asynccache/asynccache.go:237-262 | after Close(c) has returned no later step of the run dispatches, performs or finishes work on c, with any number of loops |
| Tickers.PassVisitsEachOnce | asynccache/asynccache.go:272-285 | between a TickLock and its TickUnlock every registered cache is started exactly once and waited for exactly once, no other cache is, and the registered set does not change |
| Tickers.WorkLiesBetween | asynccache/asynccache.go:273-284 | at every moment of a pass a cache is worked on exactly when it has been started and is not done |
| Tickers.WorkIsExclusive | asynccache/asynccache.go:266-292 | two loops never work at the same time, so refreshes of one cache are serialised, and a cache being worked on is not dispatched again |
| Tickers.SecondCloseStopsAnotherCache | asynccache/asynccache.go:238-249 | a run in which a second Close of one cache leaves another open cache registered with no loop |
| Tickers.InvOfRun | asynccache/asynccache.go:266-292 | the ticker invariant holds after every run |
| CacheRaces.GetOrSetAnswer | asynccache/asynccache.go:181-205 | under every interleaving a GetOrSet hit returns a fetched or supplied value of its key, never one that came with an error; a replacement returns the call's own default; a miss returns what its flight fetched if that succeeded, else the failed value if a Get led the flight and the leader's default if a GetOrSet did, so its own default exactly when the flight was led with it |
| CacheRaces.CleanGetAnswer | asynccache/asynccache.go:160-167 | a Get answer belongs to its key; on a hit it is a failed fetch's value exactly when the entry had an error at the load of the value and no refresh had stored a good value in it yet |
| CacheRaces.TornExactly | asynccache/asynccache.go:163-166 | a Get hit with a nil error loaded the value at one step and the error at a later one, and its value is a failed fetch's exactly when both stores of the refresh that ended the entry's error fall between the two |
| CacheRaces.MissedGetAnswer | asynccache/asynccache.go:169-176 | a Get miss returns the value and error its flight landed, so never a failed value without its error; joining a GetOrSet's failing flight it returns that caller's default and no error |
| CacheRaces.TornGet | asynccache/asynccache.go:163-166 | a run in which Get returns the value of a failed fetch with a nil error |
| CacheRaces.DefaultLostByJoining | asynccache/asynccache.go:194-204 | a run in which GetOrSet joins a failing Get and returns the failed value instead of its default |
| CacheRaces.OtherDefaultByJoining | asynccache/asynccache.go:194-204 | a run in which GetOrSet joins a failing GetOrSet and returns that call's default instead of its own |
| CacheRaces.FlightSharesAnswer | asynccache/asynccache.go:169-175 | all calls answered by one flight get the same value |
| CacheRaces.OneFetchPerKey | asynccache/asynccache.go:194-203 | at most one fetch for a missing key is under way in every reachable state |
| CacheRaces.CachedUnderItsKey | asynccache/asynccache.go:91-98 | under every interleaving, whatever is cached under k the Fetcher has returned for k or a caller has supplied for k, and while the entry has no error the Fetcher did not return it with one |
| CacheRaces.AnswerIsTraced | asynccache/asynccache.go:160-205 | the same for every value a Get or GetOrSet call returns |
| CacheRaces.LogsAreTheRun | asynccache/asynccache.go:160-205 | the two logs hold exactly what Fetcher calls of the run returned and what callers of the run supplied, per key |
| CacheRaces.AllTracedOfRun | asynccache/asynccache.go:160-205 | after every run each entry, answer, landed flight and refresh in progress holds a logged return of the Fetcher or a logged default |
| CacheRaces.ErrorFreeForever | asynccache/asynccache.go:334-352 | an entry without an error never acquires one later in any run |
| CacheRaces.ErrorEndsOnlyBy | asynccache/asynccache.go:319-354 | an error cached under k ends only by a refresh of that entry whose fetch succeeded, a GetOrSet replacement, a re-store by a call that had missed k, or a deletion |
| CacheRaces.InvOfRun | asynccache/asynccache.go:91-98 | the entry, flight and refresh invariant holds after every run, and entries keep their key and stay error-free |
| CacheRefinement.StepIsForced | asynccache/asynccache.go:160-205 | a call never has a choice of step, except for what the Fetcher returns |
| CacheRefinement.GetRefines | asynccache/asynccache.go:160-177 | a Get that runs alone, in the given steps, leaves the values and errors that the method leaves, and answers with what is then cached |
| CacheRefinement.GetOrSetRefines | asynccache/asynccache.go:181-205 | the same for GetOrSet, on a miss, on a cached error and on a good hit |
| CacheRefinement.SetDefaultRefines | asynccache/asynccache.go:147-155 | the same for SetDefault |
| CacheRefinement.DeleteRefines | asynccache/asynccache.go:224-235 | the same for the deletion of one key |
| CacheRefinement.RefreshRefines | asynccache/asynccache.go:319-354 | a refresh pass over all keys that nothing interrupts leaves what the method leaves |
| AsyncCaches.SecondChance | asynccache/asynccache.go:294-317 | after every history a key is cached exactly when some access to it was followed by no deletion and at most one expire pass, and its bit is clear exactly when by no pass |
| AsyncCaches.ExpireRemovesUntouched | asynccache/asynccache.go:308-313 | an expire pass removes exactly the cached keys not accessed since the pass before, and sets the bit of the others |
| AsyncCaches.ErrorIsSticky | asynccache/asynccache.go:37-40 | a cached error stays over more calls exactly when none of them is a GetOrSet of the key, a deletion, an expiry of it or a refresh whose fetch succeeds |
| AsyncCaches.ValueLaw | asynccache/asynccache.go:91-98 | after every history the value cached under a key is the last one given to it: by a SetDefault or a fetch or default on a miss, a GetOrSet replacing an error, or a successful refresh |
| AsyncCaches.ErrorLaw | asynccache/asynccache.go:157-160 | a key is cached with an error exactly when some Get of it missed and failed, and since then it was never let go, refreshed successfully or hit by GetOrSet |
| AsyncCaches.LatestError | asynccache/asynccache.go:334-343 | the error cached under a key is the one of the last failed miss or failed refresh of a cached error |
| AsyncCaches.AsyncCache.SetDefault | asynccache/asynccache.go:147-155 | reports whether the key existed; touches the entry or stores the default |
| AsyncCaches.AsyncCache.Get | asynccache/asynccache.go:160-177 | returns what is cached under the key afterwards, touched, fetching only on a miss |
| AsyncCaches.AsyncCache.GetOrSet | asynccache/asynccache.go:181-205 | the result is cached without error afterwards, and is the default when the cached entry has an error or the missing key's fetch fails |
| AsyncCaches.AsyncCache.DeleteIf | asynccache/asynccache.go:224-235 | removes exactly the keys the predicate selects |
| AsyncCaches.AsyncCache.Expire | asynccache/asynccache.go:294-317 | removes the entries whose bit is set and sets the bit of the others |
| AsyncCaches.AsyncCache.Refresh | asynccache/asynccache.go:319-354 | stores a successful fetch, replaces an error by a newer one, leaves a good entry alone on failure; keys and bits do not change |
| AsyncCaches.Entry.MarkExpiring | asynccache/asynccache.go:308 | compare-and-swap of the expire bit from clear to set |
| Decimal.PrintThenParse | util/common.go:61-67 | parsing a printed UI amount back gives the amount, for every integer and every number of decimals |
| Decimal.PrintThenFloor | loader/aggregator_route.go:624-626 | reading the printed amount as a rational, scaling and flooring gives the amount |
| Decimal.ReadPrinted | loader/aggregator_route.go:670-677 | the printed text denotes exactly wei / 10^decimals, for every integer and every number of decimals |
| Decimal.FloatStringOfScaled | loader/aggregator_route.go:674-676 | the printed form is the same for every representation of the fraction |
| Decimal.RatReadIsDecimalRead | util/common.go:61-65 | whatever the rational parser reads, the decimal parser reads as the same number |
| Decimal.TruncationAgreesWithFloor | util/common.go:66 | truncating and flooring conversions of a literal agree exactly when it is not negative or loses no digits; otherwise truncation gives one unit more |
| Decimal.SignedLiteralRead | util/common.go:61-65 | both parsers read an optional sign, digits, a point and digits as the signed number the digits denote |
| BridgeFees.FromUiString | loader/bridge_fee.go:174-190 | the step-by-step computation leaves amount minus scale * floor(amount * ratio / (10^8 * scale)) |
| BridgeFees.FeeIsRoundedShare | loader/bridge_fee.go:178-187 | for a positive ratio the fee is a multiple of the scale, at most the exact share and less than one scale below it; otherwise there is no fee |
| BridgeFees.RowScale | loader/bridge_fee.go:182-206 | the scale of a row times 10^keepDecimal is 10^decimal; it is 1 when the row keeps at least as many decimals as the token has |
| BridgeFees.FeeMonotone | loader/bridge_fee.go:178-187 | the fee is not negative and grows with the amount and the ratio |
| BridgeFees.FeeOfSplit | loader/bridge_fee.go:178-187 | splitting an amount never raises the fee and lowers it by at most one scale |
| BridgeFees.SelectorsAgreeExactly | loader/bridge_fee.go:236-262 | quoting the net amount picks the level the full amount was charged, for all thresholds and amounts, exactly when no later level has a higher positive ratio |
| BridgeFees.RisingRatiosDisagree | loader/bridge_fee.go:236-262 | thresholds and an amount for which any rise in the ratios makes the selectors disagree |
| BridgeFees.IncludedLevelIsFirst | loader/bridge_fee.go:236-245 | the included level is the first whose threshold plus fee exceeds the amount |
| BridgeFees.NotIncludedLevelIsFirst | loader/bridge_fee.go:248-263 | the not-included level is the first whose threshold exceeds the amount |
| BridgeFees.TiersOfPrinted | loader/bridge_fee.go:222-235 | thresholds printed into a row's texts are read back as that row's thresholds, level by level, beside its ratios |
| BridgeFees.GetIncludedBridgeFeeBigInt | loader/bridge_fee.go:212-246 | the ratio of the selected level; fails exactly when there is no row or one of the three thresholds does not parse |
| BridgeFees.GetBridgeFeeDetail | loader/bridge_fee.go:192-210 | zero on failure; otherwise the ratio of the included level and its fee, and with sorted ratios that is also the ratio quoted for the rest |
| Dtcs.FromUiString | loader/dtc.go:215-231 | the sum of the two texts in the smallest unit, an empty or unreadable one counting as zero |
| Dtcs.AddThenReadExactly | loader/dtc.go:233-265 | the fee added to an amount is the fee read back from the sum, for all bounds and amounts, exactly when the fees never fall |
| Dtcs.ReadThenAddExactly | loader/dtc.go:233-265 | with such fees, the converse holds for v exactly when v less its fee exceeds the bounds of all lower levels, which is exactly when v is some x plus the fee quoted for x |
| Dtcs.IncludedLevelIsFirst | loader/dtc.go:233-248 | the included level is the first whose bound the amount less that level's fee does not exceed |
| Dtcs.ToIncludeLevelIsFirst | loader/dtc.go:250-265 | the level to include is the first whose bound the amount does not exceed |
| Dtcs.TiersOfPrinted | loader/dtc.go:215-231 | fees and bounds printed into a row's texts are read back as that row's fees and bounds, level by level |
| Dtcs.GetIncludedDtcBigInt | loader/dtc.go:233-248 | the contained fee of the first level whose bound plus fee is not exceeded |
| Dtcs.GetDtcToIncludeBigInt | loader/dtc.go:250-265 | the fee to add, of the first level whose bound is not exceeded |
| Dtcs.GetMinValueIncludeGasFee | loader/dtc.go:267-284 | the text of the first fee that covers itself, failing exactly when none does; with fees that never fall it is found and denotes the least amount covering its own fee |
| Routes.IsAmountInRouteRange | loader/aggregator_route.go:547-572 | inclusive bounds, empty or "0" meaning none, unreadable meaning no match |
| Routes.RangeInUnits | loader/aggregator_route.go:547-572 | a route with bounds printed from amounts takes exactly the amounts from the minimum to the maximum, both included, a zero bound being none |
| Routes.FindMatchingSegment | loader/aggregator_route.go:575-608 | the first segment whose half-open interval holds the amount |
| Routes.SegmentFor | loader/aggregator_route.go:581-607 | the segment found covers the amount; none is found exactly when none covers it |
| Routes.SegmentInUnits | loader/aggregator_route.go:581-607 | a segment with bounds printed from amounts takes exactly the amounts from the minimum up to, not including, the maximum, a zero maximum being none |
| Routes.SegmentIsFirst | loader/aggregator_route.go:581-607 | when segments overlap the earliest that covers the amount is found |
| Routes.TilingDecidesSegment | loader/aggregator_route.go:575-608 | if some order of the segments tiles [m, infinity), each amount from m up lies in exactly one and the search finds it in any order; below m none |
| Routes.CalculateFee | loader/aggregator_route.go:614-667 | the channel fee is the fixed fee in the smallest unit rounded down; Owlto fee less channel fee, and the protocol fee, are their basis points of the floored amount rounded down, or nothing; the total is channel plus Owlto fee; the UI texts parse back to the amounts |
| Routes.FeesAreDetermined | loader/aggregator_route.go:623-656 | those bounds leave exactly one value of every fee |
| Routes.FixedUIRead | loader/aggregator_route.go:629-632 | the empty text and "0" mean no fixed fee, a readable text means its value |
| Decimal.FloorToWeiBounds | loader/aggregator_route.go:624-626 | the conversion to the smallest unit is the integer w with w <= amount * 10^decimals < w + 1 |
| Routes.IndexRoutes | loader/aggregator_route.go:297-326 | each chain pair's list is the rows of that pair in load order |
| Routes.IndexSegments | loader/aggregator_route.go:351-363 | each route's list is the rows with that route id in load order |
| Routes.AggregatorManager.LoadAll | loader/aggregator_route.go:170-184 | the index invariant survives every load; a failing query keeps the old rows of everything from there on, so routes can be new while segments stay old; otherwise both are replaced entirely |
| Routes.AggregatorManager.GetRoutesByChainPairAndSymbol | loader/aggregator_route.go:448-471 | exactly the loaded routes with that source chain, destination chain and token, in load order |
| Text.SelectInOrder | loader/aggregator_route.go:461-466 | a selection of rows is the rows at increasing places, at all places that satisfy the condition |
| Routes.AggregatorManager.FindBestRoute | loader/aggregator_route.go:485-545 | a loaded route of the pair and token with its own segment, aggregator and every fee and text of that segment; no eligible route is cheaper and earlier ones are dearer; each error exactly in its case |
| Routes.ValidAmountPrinted | loader/aggregator_route.go:497-500 | a printed amount is accepted exactly when it is positive |
| Tlv.GetExtensionData | rpc/solana.go:84-96 | on arbitrary bytes: the first entry of the type in the buffer's decomposition, or nil; never out of range |
| Tlv.ScanOfEncoded | rpc/solana.go:84-96 | on encoded entries followed by fewer than four bytes: the value of the first entry of the type, nil exactly when there is none |
| Tlv.DecodeEncode | rpc/solana.go:84-96 | the decomposition of encoded entries and stray bytes is those entries and bytes |
| Tlv.EncodeDecode | rpc/solana.go:84-96 | every buffer is its entries encoded, followed by bytes in which no entry is complete |
| Tlv.EntryOnTheWire | rpc/solana.go:87-88 | an entry is encoded as type and length, low byte first, then its bytes |
| Tlv.ScanReadsHeader | rpc/solana.go:84-96 | a buffer starting with those bytes answers the value for that type, and for another type what the remaining bytes answer |
| Tlv.ScanOfTruncated | rpc/solana.go:85-93 | too few bytes for a header or for its length answer nil |
| Addresses.GetChecksumAddress64 | util/address.go:95-129 | the method, with its in-place casing loop, computes the checksum of the typed digits, with each error in its case |
| Addresses.CaseDigits | util/address.go:120-127 | rewrites the digits in place, upper case where the hash nibble is at least 8 |
| Addresses.ChecksumRule | util/address.go:95-129 | hex digits are accepted exactly when their number n and the hash h of its big-endian bytes are below 2^256; character i is then hex digit i of n, in upper case exactly when hex digit i of h is at least 8 |
| Addresses.NonHexRejected | util/address.go:104-118 | anything but hex digits is an error |
| Addresses.BodyOfSpelling | util/address.go:96-97 | outer space, a 0x or 0X prefix and letter case do not change the digits read |
| Addresses.ChecksumIsCanonical | util/address.go:95-129 | for valid digits the result is a function of their number alone |
| Addresses.CanonicalIsFixed | util/address.go:95-129 | the result is 0x and 64 digits of the same number, and is its own checksum address |
| Addresses.SpellingDoesNotMatter | util/address.go:95-104 | two spellings of one number get the same address, whatever case, prefix, space or leading zeros |
| Addresses.GetFuelChecksumAddress | util/address.go:38-53 | rejects what is not a B256 address, otherwise cases its digits by the digest of the lower-case digits |
| Addresses.FuelRule | util/address.go:70-86 | bit 7 of byte i of the digest of the lower-case digits decides the case of digit 2i, bit 3 that of digit 2i + 1 |
| Addresses.FuelChecksumFolds | util/address.go:60-88 | the Fuel encoding changes only letter case, ignores input case and is idempotent |
| LpInfos.LookupIsLastRow | loader/lp_info.go:179-200 | the five-level index answers as the search for the last row with the key |
| LpInfos.LpInfoManager.LoadAllLpInfo | loader/lp_info.go:132-216 | after loading, the index and the list are those of the accepted rows |
| LpInfos.LpInfoManager.GetLpInfo | loader/lp_info.go:76-96 | the last row with the version and, trimmed and lower-cased, the token, from, to and maker, with its names trimmed; none exactly when no row has them |
| LpInfos.LpInfoManager.GetLpInfos | loader/lp_info.go:57-74 | found exactly when some row has the pair; then every maker's last row |
| LpInfos.LpInfoManager.GetTokensByLp | loader/lp_info.go:98-130 | known version exactly when some row has it; the upper-case token of each row for that from and to, once, and no others |
| Text.FoldForgets | loader/lp_info.go:78-82 | space around a name and its letter case make no difference, everything else does |
| NodeInfos.NodeInfoManager.LoadAllNodes | loader/node_info.go:124-186 | after loading, the global list and every group list are sorted rearrangements of their rows, and the id index holds the last row of each id |
| NodeInfos.NodeInfoManager.GroupsAreFilteredWhole | loader/node_info.go:170-178 | with ids that identify nodes, every group list is the sorted global list filtered to the group |
| NodeInfos.GroupOfSortedWhole | loader/node_info.go:188-195 | sorting a group and taking the group out of the sorted whole give the same list |
| NodeInfos.SortedUnique | loader/node_info.go:188-195 | with ids that identify nodes there is one sorted order |
| NodeInfos.NodeInfoManager.GetNodeInfoById | loader/node_info.go:46-52 | a node with the id, or none exactly when no row has it |
| NodeInfos.NodeInfoManager.GetBestNodeByRealChainIdAndType | loader/node_info.go:101-107 | maximal usability, least id on ties, among the rows of the chain and type; none exactly when there are none |
| NodeInfos.NodeInfoManager.GetAvailableNodeByRealChainId | loader/node_info.go:111-122 | the same maximum over the chain; fails exactly when no node there has positive usability |
| Alerters.CommonAlerter.DoAlertTextLazy | alert/common.go:43-60 | the new timers and whether an alert goes out, for the group and time of the call |
| Alerters.RateLimit | alert/common.go:43-60 | over every mixture of calls, k alerts of a group whose calls span T seconds satisfy k * lazyInterval <= T |
| Alerters.EveryDueCallAlerts | alert/common.go:50-59 | with calls at most g apart and lazyInterval + g <= lazyReset the reset never fires, a call alerts exactly when due, and T < k * (lazyInterval + g) + lazyInterval |
| Alerters.AlertsExactly | alert/common.go:43-60 | a call alerts exactly when its group's timer is at least lazyInterval and less than lazyReset old; the timer then moves, as it does on a first call or from lazyReset on; other groups' timers stay |
| Alerters.SilenceResets | alert/common.go:50-53 | a call lazyReset or more after the group's last call does not alert and restarts the timer |

## Left out

- CacheRaces.ErrorEndsOnlyBy: a deletion may come at any moment, so the order of the compare-and-swap and the delete inside an expire pass is not modelled; a pass can delete an entry stored between the two.
- AsyncCaches.SecondChance: each method is one step; touches that race with an expire pass are not ordered here.
- CacheRaces.OneFetchPerKey: fetches of the refresh pass are not counted.
- Tickers: claims are about what runs can reach; scheduling fairness and real time are not modelled. One ticker is modelled; a cache with expiry registers with two independent ones.
- Alert and delete handlers, log functions, type-assertion failures, `Dump`, and values of changing dynamic type in `atomic.Value`.
- BridgeFees.RisingRatiosDisagree: exact integers in place of float64 amounts, as below.
- BridgeFees.NotIncludedLevelIsFirst: likewise.
- BridgeFees.SelectorsAgreeExactly: `GetBridgeFeeNotIncluded` compares float64 amounts in the source; the model compares exactly in the smallest unit.
- `GetIncludedDtc`, `GetDtcToInclude` and every other float64 field and comparison.
- Decimal.RatReadIsDecimalRead: plain signed literals only; of what `big.Rat` reads beyond them, the decimal parser rejects some (fractions, prefixes).
- Decimal.PrintThenParse: exponents, fractions, underscores and non-decimal prefixes that the libraries also accept are read as invalid; int32 overflow of an exponent is not modelled.
- Routes.CalculateFee: token decimals are not negative, and amounts are plain decimal literals.
- `routesBySymbol`, `routesByID`, the aggregator and chain configs of the aggregator manager: plain maps of the same kind as the route index.
- `sort.Slice` is a stand-in insertion sort with the same contract; the uniqueness result makes the choice immaterial.
- Unicode in trimming and case folding: names and addresses are folded as ASCII.
- The loaders' SQL, row scanning, number parsing that skips rows, locking and alert texts; `LoadAllBridgeFee` and `LoadAllDtc` build the same kind of nested index as `LpInfo`.
- The hash functions themselves, the 40-digit EIP-55 encoding and the dispatch on address length.
- All RPC clients, HTTP, transaction builders, ABI bindings, JWT, telemetry, configuration and the remaining loaders: I/O, generated code, or indexes of the shapes shown here.
