# A verified model of cachalot

This project models the behaviour of the cachalot cache library in Dafny and proves what that behaviour
guarantees: over every run, for any number of levels, any list of transforms, any failures and any passing of
time.

- `Prelude.dfy` has options, results and error values; `IsNotFound` is `errors.Is(err, ErrNotFound)`.
- `TtlStore.dfy` is one TTL map with lazy expiry (`SlowMapStore`); `LazyExpiry.dfy` compares its runs with a map
  that drops items the instant they expire; `StoreInterleaving.dfy` takes its lock sections apart.
- `MultiLevel.dfy` is the multi-level cache as a class over its levels. `MultiLevelRuns.dfy` has its runs, with
  the staleness bound and provenance; `MultiLevelLaws.dfy` has read-repair against a plain map, agreement of the
  levels, the order of parallel writes, and deferred write-backs.
- `ExpiryHeader.dfy` is the eight-byte expiry header. `Pipeline.dfy` is the stack of byte transforms and the
  typed cache on top; `Compile.dfy` chooses the path and the adapter. `LogicExpiry.dfy` is the logical-TTL
  decorator, on either path.
- `LoaderStack.dfy` has the loader and protection decorators and the count of loader calls. `Building.dfy` is the
  builder that compiles the stages, appends the decorators and collects what is wrong.
- `Singleflight.dfy` is the protocol that merges concurrent calls. `Options.dfy` is cache construction.

Time is an explicit integer clock in nanoseconds; an instant or deadline that Go leaves zero is `None`. What the
environment decides is a parameter: the clock, what the loader would return, and for each level whether it is
healthy, refuses a call, or does the work but loses the reply. The order in which parallel tasks run is an
arbitrary choice inside the loop, so what is proved holds of every order.

Methods are proved against functions of the old state (`GetResult`, `Fetch`, `AfterRepair`, `AfterLogicGet`,
`Read`, ...); the lemmas are about those functions and about runs of them.

Where the repository's comments and its code differ, the model follows the code:

- The last declared byte transform is the outermost and runs first on Set, although the comment on
  `WithByteTransforms` says declaration order (`StoredBytes`).
- A logical-expiry refresh runs inside Get, not in the background (`LogicTTLDecorator.Get`), and GetWithTTL
  never refreshes.
- When the loader fails, the sequential fetch reports no failed levels and nothing is repaired (`FetchLaw`).
- Strict mode returns the write-back error but undoes no write-back (`MultiCache.Get`).
- A remaining TTL of 0 is documented as "never expires". The store also returns 0 at an item's last instant
  (`ZeroTTLIsAmbiguous`).
- A type adapter given together with logical expiry converts nothing (`LogicExpiryIgnoresTypeAdapter`).
- Building twice stacks the decorators twice: same replies, but more loader calls on "not found"
  (`BuildingIsIdempotent`, `CallsAfterRebuild`).

Eight properties one might expect are false. Each comes with an input that breaks it and with the exact condition
under which it holds:

- The byte path equals the plain path only for deadlines that fit the header (`PathsAgreeIffDeadlineFits`) and for
  values the transforms accept (`SetAnswersAlikeIff`); under both conditions it does over every run
  (`BytePathIsPlainPath`).
- Parallel writes keep the levels in agreement exactly when no level that did not store the value dissents
  (`WritesKeepAgreementIff`; for one event of any kind `StepKeepsAgreementIff`, over runs `LevelsAlwaysAgree`). A
  partial Set breaks it (`PartialSetBreaksAgreement`), and so does a deferred write-back that runs late, although
  nothing fails (`DeferredWriteBreaksAgreement`).
- A late eviction can delete a fresh item (`EvictionCanDropFreshItem`). Over runs none does if no Set overtakes a
  reader (`EvictionInvisible`), and each Set that does overtake one can be lost (`OvertakingIsHarmfulIff`). For a
  given reader and Set, `CommitUnderEvictionIff` and `CommitUnderCheckIff` say exactly when.
- A concurrent GetWithTTL can pair a value with another item's time (`ReportCanBeTorn`), or report a value with a
  deadline as one that never expires (`DeletedReportSaysForever`). `ReportIsConsistentIff` says exactly when a
  report is consistent, in terms of what the second read finds; `UndisturbedReportIsConsistent` lifts it to runs.
- A shared group can hand a caller a result of the wrong kind (`MixedCallPanics`); `CallerReceivesItsFlight` says
  exactly when, and `NoPanicUnlessMixed` excludes it over runs.
- A caller whose context ends can fail everybody who joined its flight, because a flight runs with the context of the
  caller that started it (`StartersEndFailsOthers`). Nobody else notices exactly when no flight that this caller
  started lands afterwards with another result than it would have had (`CancellationIsLocalIff`); a caller that
  started none never disturbs anybody (`JoinersCancellationIsLocal`).
- A deleted value can come back: a deferred write-back that was pending at the Delete restores it (`PendingComesBack`).
  Without one it never does, once every level has carried the Delete out (`DeletedIsForgotten`).
- Strict mode answers as tolerant mode only when every write-back succeeds (`ModesAgreeIff`). That the levels do not
  depend on the mode is part of the contract of `MultiCache.Get`, which reads the mode after the writes.

## Model

| member | source | states |
|---|---|---|
| `TtlStore.SlowMapStore.Get` | examples/05_advanced_multi_cache/custom_store.go:28-46 | returns the value unless it is absent or past its deadline, and deletes it only in the latter case |
| `TtlStore.SlowMapStore.Set` | examples/05_advanced_multi_cache/custom_store.go:48-62 | refuses a negative TTL without effect; otherwise stores the value until now + TTL, or for ever when the TTL is 0 |
| `TtlStore.SlowMapStore.GetWithTTL` | examples/05_advanced_multi_cache/custom_store.go:64-76 | the value of Get with the time left, 0 when it never expires |
| `LazyExpiry.LazyExpiryInvisible` | examples/05_advanced_multi_cache/custom_store.go:28-93 | over every sequential run the lazily expiring store answers exactly as a map that drops items the instant they expire, and holds the same live items |
| `LazyExpiry.ZeroTTLIsAmbiguous` | core/cache/store.go:13-14 | a reported time of 0 means "never expires" or "this is the last instant", and nothing else |
| `StoreInterleaving.ServedWasWrittenAndLive` | examples/05_advanced_multi_cache/custom_store.go:33-45 | under every interleaving of the lock sections a Get returns only a value some Set stored under that key and that was unexpired when checked |
| `StoreInterleaving.GetAlone` | examples/05_advanced_multi_cache/custom_store.go:28-46 | with nothing in between, the sections of a Get serve what the sequential Get returns and leave what it leaves |
| `StoreInterleaving.GetWithTTLAlone` | examples/05_advanced_multi_cache/custom_store.go:64-76 | the same for GetWithTTL, with its time |
| `StoreInterleaving.SetAlone` | examples/05_advanced_multi_cache/custom_store.go:48-62 | and for Set |
| `StoreInterleaving.ClearForgets` | examples/05_advanced_multi_cache/custom_store.go:86-93 | after Clear, unless a reader still has a copy in hand, whatever is served or reported over any run was stored afterwards |
| `StoreInterleaving.ReportedWasWritten` | examples/05_advanced_multi_cache/custom_store.go:64-76 | under every interleaving the value of a GetWithTTL was stored under the key, and its time is 0 or that of an item stored under the key |
| `StoreInterleaving.EvictionInvisible` | examples/05_advanced_multi_cache/custom_store.go:39-43 | in every run in which no Set overtakes a reader of its key (one about to evict while the new item is live, or one whose copy has a deadline that the new item outlives), no reader ever changes what another one can see |
| `StoreInterleaving.OvertakingIsHarmfulIff` | examples/05_advanced_multi_cache/custom_store.go:28-62 | that condition is exact: a step overtakes a reader just when, after it, some reader running alone evicts a live item |
| `StoreInterleaving.RunOvertakesIff` | examples/05_advanced_multi_cache/custom_store.go:28-93 | over every run: at no moment is a reader overtaken exactly when no Set of the run overtakes one |
| `StoreInterleaving.CommitUnderEvictionIff` | examples/05_advanced_multi_cache/custom_store.go:39-61 | for a reader about to evict a key, a Set that completes first is lost to it exactly when it is for that key and its item is still live |
| `StoreInterleaving.CommitUnderCheckIff` | examples/05_advanced_multi_cache/custom_store.go:33-61 | for a reader that has only copied its item, with any waiting before its check and before its eviction: the Set is lost to it exactly when the copy has expired at the check, the keys are equal, and the new item is live at the eviction |
| `StoreInterleaving.EvictionCanDropFreshItem` | examples/05_advanced_multi_cache/custom_store.go:39-43 | otherwise, for every key, values and TTL, one schedule stores a value for ever and then loses it to a late eviction |
| `StoreInterleaving.ReportCanBeTorn` | examples/05_advanced_multi_cache/custom_store.go:65-75 | a Set between the two reads of a GetWithTTL makes it report a value stored for ever with the time left of another value |
| `StoreInterleaving.DeletedReportSaysForever` | examples/05_advanced_multi_cache/custom_store.go:65-75 | a Delete there makes it report a value that has a deadline with 0, which means "never expires" |
| `StoreInterleaving.ReportIsConsistentIff` | examples/05_advanced_multi_cache/custom_store.go:64-76 | whatever happens between the second read and the clock: the reported time is that of the reported value exactly when that read finds the copied item's deadline, or both deadlines are absent or the very instant of the clock, so that both read 0 |
| `StoreInterleaving.UndisturbedReportIsConsistent` | examples/05_advanced_multi_cache/custom_store.go:64-76 | over every run: if nothing stores, deletes or evicts the key between the two reads, value and time come from one item, whatever else happens there and whatever happens before the clock is read |
| `MultiLevel.MultiCache.FetchPolicySequential` | core/multicache/fetch_policy.go:30-61 | probes in order, stops at the first level that answers, falls back to the loader, and reports exactly the levels passed over, with the error of each, or none if the loader fails; levels may share a cache |
| `MultiLevel.MultiCache.MissedCacheFilter` | core/multicache/write_back_filter.go:14-22 | keeps the failed levels whose error is a true miss, in order |
| `Prelude.IsNotFoundIff` | core/multicache/write_back_filter.go:17 | an error counts as a miss exactly when the sentinel stands somewhere inside it, through any wrappers and any member of a join |
| `MultiLevel.MissedIff` | core/multicache/write_back_filter.go:14-22 | a level is kept exactly when it is listed with an error that wraps ErrNotFound |
| `MultiLevel.RepairedIff` | core/multicache/write_back_filter.go:14-22 | in terms of the failures: a level before the hit is repaired exactly when it is healthy, so that it has no live entry, or its error has the sentinel inside, at any depth |
| `MultiLevel.FetchLaw` | core/multicache/fetch_policy.go:39-61 | under any failures: the loader is asked exactly when no level answers, exactly the true misses before the hit are repaired, none when the loader fails, and probing removes only an expired entry of the key |
| `MultiLevel.MultiCache.RunSets` | core/multicache/multi_cache.go:85-93 | in whatever order the tasks run, and if levels share a cache: every cache with a task that is carried out holds the value, and exactly the errors that occur are collected, each as often as it occurs |
| `MultiLevel.WriteErrorsIff` | core/multicache/write_back.go:16-26 | an error is collected exactly when the Set of some target fails with it: the level's own, or the refusal of a negative TTL |
| `MultiLevel.MultiCache.WriteBackParallel` | core/multicache/write_back.go:15-27 | the same with the one fixed TTL; the error is nil exactly when all succeed and otherwise joins exactly the errors that occurred |
| `MultiLevel.MultiCache.Get` | core/multicache/multi_cache.go:54-81 | fetches, repairs, and answers by mode, for any list of levels; what it leaves does not depend on the mode, and strict mode returns the joined write-back errors |
| `MultiLevel.AnswersAre` | core/multicache/multi_cache.go:61-80 | the fetched value or its error, unless a target's write failed; then strict mode joins exactly the errors of these writes, tolerant mode still has the value, and a mode that does not exist gives an error of its own |
| `MultiLevel.MultiCache.Set` | core/multicache/multi_cache.go:84-94 | writes every level whatever fails; nil exactly when all succeed, otherwise the error of some failing level |
| `MultiLevel.MultiCache.Delete` | core/multicache/multi_cache.go:97-106 | deletes at every level that does not refuse and joins the errors in level order |
| `MultiLevel.MultiCache.Clear` | core/multicache/multi_cache.go:109-118 | clears every level that does not refuse and joins the errors in level order |
| `MultiLevel.CollectedIs` | core/multicache/multi_cache.go:97-118 | Delete and Clear report nothing exactly when no level fails, and otherwise the error of every failing level, in level order |
| `MultiLevelRuns.StalenessBound` | core/multicache/fetch_policy.go:39-50 | in every run of n levels with write-back TTL W and write-backs delayed by at most L: a value Set at o with TTL D is never served after o + D + (n-1)(W+L), and a loaded one never after o + n(W+L) |
| `MultiLevelRuns.SynchronousIsTimely` | core/multicache/write_back.go:16-26 | without deferral the delay is 0, so the bound is o + D + (n-1)W and o + nW |
| `MultiLevelRuns.StepKeepsFresh` | core/multicache/multi_cache.go:54-94 | the invariant behind it: an entry of level i is at most n-1-i write-backs away from its origin, because repair copies upwards only |
| `MultiLevelLaws.StalenessBoundIsAttained` | core/multicache/write_back.go:15-27 | for every n, D, W and, with deferral, L: some run that offers no other value serves the one Set at 0 at exactly D + (n-1)(W+L) |
| `MultiLevelLaws.LoadedBoundIsAttained` | core/multicache/write_back.go:15-27 | for every n, W and, with deferral, L: a value loaded once, at 0, is still served at exactly n(W+L) |
| `MultiLevelRuns.Provenance` | core/multicache/multi_cache.go:54-94 | whatever fails, deferred or not: every entry and every served value was passed to Set, or returned by the loader, for that key |
| `MultiLevelRuns.DeletedIsForgotten` | core/multicache/multi_cache.go:97-118 | once every level has carried out a Delete or Clear and no write-back of the key is pending, whatever is stored or served under the key over any later run was Set or loaded afterwards |
| `MultiLevelRuns.PendingComesBack` | core/multicache/write_back/builder.go:80-90 | a pending write-back brings the old value back, although nothing offers it |
| `MultiLevelLaws.ReadRepairRefinesMap` | core/multicache/multi_cache.go:54-81 | when levels only hit or miss: Get returns the first live value or the loader's, changes the view of no other key and nothing at or below the hit, and a level above holds the value with the write-back TTL exactly when its write was applied |
| `MultiLevelLaws.ViewAfterGet` | core/multicache/multi_cache.go:65-80 | after a successful Get the first live value is the returned one, unless it was loaded and no level stored it |
| `MultiLevelLaws.WritesKeepAgreementIff` | core/multicache/multi_cache.go:84-94 | writing any list of levels under any failures keeps the levels in agreement exactly when none of them stores the value, or no level that does not store it has a different live one |
| `MultiLevelLaws.SetKeepsAgreementIff` | core/multicache/multi_cache.go:84-94 | the same for a Set, in terms of the levels before it and of its failures |
| `MultiLevelLaws.StepKeepsAgreementIff` | core/multicache/multi_cache.go:54-118 | for every event (Get under any probe failures, deferred or not; Set, Delete, Clear, a pending write-back, a lost entry, time): agreement is kept exactly when what it writes is harmless in that sense |
| `MultiLevelLaws.LevelsAlwaysAgree` | core/multicache/multi_cache.go:54-118 | over every run, whatever fails and with or without deferral: two live entries of one key are equal at every moment exactly when each write of the run is harmless |
| `MultiLevelLaws.OrdinaryRunsAgree` | core/multicache/multi_cache.go:54-118 | without deferral that is so in every run whose Gets see hits or true misses and whose Sets are stored by all levels or by none, whatever Deletes, Clears and write-backs fail and whatever levels lose |
| `MultiLevelLaws.PartialSetBreaksAgreement` | core/multicache/multi_cache.go:84-94 | a Set that one of two levels refuses leaves two different live values |
| `MultiLevelLaws.DeferredWriteBreaksAgreement` | core/multicache/write_back/builder.go:80-90 | a deferred write-back of a loaded value that runs after a Set does so although nothing fails |
| `MultiLevelLaws.OrderIsIrrelevant` | core/multicache/write_back.go:16-26 | every order of the same parallel Sets ends in the same levels and collects the same errors |
| `MultiLevelLaws.ModesAgreeIff` | core/multicache/multi_cache.go:67-80 | all answers of two runs that differ only in the mode are equal exactly when every write-back a Get waits for succeeds; where one fails, tolerant mode has the value and strict mode joins exactly the errors that occurred |
| `MultiLevelLaws.DeferredDrainsToSynchronous` | core/multicache/write_back/builder.go:80-90 | after a deferred Get, once its write-backs have run in any order and among any operations on other keys, every level stores under the key what the synchronous Get leaves there |
| `MultiLevelLaws.DrainedIsSynchronous` | core/multicache/write_back/builder.go:80-90 | when only its write-backs run after a deferred Get, then once all have run, in any order, the whole state is the one the synchronous Get leaves; and the deferred Get answers as tolerant mode does |
| `ExpiryHeader.EncodeLogicTTLBytes` | internal/adapter/logicttl_bytes_adapter.go:64-77 | fills the buffer with the eight header bytes and the payload |
| `ExpiryHeader.StoredForm` | internal/adapter/logicttl_bytes_adapter.go:64-77 | byte i of the header is byte i of the deadline, lowest first, in two's complement, and 0 without a deadline; then the payload |
| `ExpiryHeader.DecodeFailsIff` | internal/adapter/logicttl_bytes_adapter.go:79-85 | decoding fails exactly below eight bytes, and otherwise gives the payload back |
| `ExpiryHeader.DecodeEncode` | internal/adapter/logicttl_bytes_adapter.go:64-97 | decoding an encoded value gives it back exactly when it has no deadline or one in (0, 2^63), and otherwise the wrapped deadline, or none if that is not positive |
| `ExpiryHeader.EncodeDecode` | internal/adapter/logicttl_bytes_adapter.go:79-97 | decoding succeeds from 8 bytes on, and encoding restores the buffer exactly when its signed header is not negative |
| `ExpiryHeader.ReencodingIsIdempotent` | internal/adapter/logicttl_bytes_adapter.go:86-96 | normalising a header once more changes nothing a reader sees |
| `Pipeline.BuildByteCache` | compile.go:84-94 | wraps each declared transform around the ones before it, or fails with the first error of a constructor |
| `Pipeline.FirstError` | compile.go:87-92 | the first constructor that fails decides the error, whatever comes after it |
| `Pipeline.ByteStack.GetAt` | core/decorator/compression.go:29-35 | each layer decodes what the layer below returns |
| `Pipeline.ByteStack.SetAt` | core/decorator/compression.go:37-43 | each layer encodes and hands down; an encoding failure writes nothing |
| `Pipeline.ByteStack.GetWithTTLAt` | core/decorator/compression.go:45-55 | as Get, with the store's remaining time |
| `Pipeline.StoredBytes` | compile.go:84-94 | the stored bytes are E_1(E_2(...E_n(b))), for every list of transforms |
| `Pipeline.ReadBytes` | core/decorator/compression.go:29-35 | a read gives D_n(...D_1(raw)): the transforms are undone from the first to the last, and the first failure is the error |
| `Pipeline.StackInverts` | core/decorator/compression.go:29-43 | decoding through the stack undoes encoding through it |
| `Pipeline.TypedCache.Get` | core/decorator/codec.go:18-31 | decodes the stored form |
| `Pipeline.TypedCache.Set` | core/decorator/codec.go:33-40 | stores the encoded form; an encoding failure writes nothing |
| `Pipeline.TypedCache.GetWithTTL` | core/decorator/codec.go:42-55 | as Get, with the store's remaining time |
| `Pipeline.PipelineRoundTrip` | compile.go:84-107 | a successful Set through any invertible adapter and transforms stores E_1(...E_n(encode(x))) and is read back, with the time left, until it expires |
| `Building.Builder.CompileStages` | compile.go:18-49 | picks the factory, or leaves it and records one error for a refused combination |
| `Building.Builder.CheckTTLConfigValid` | compile.go:137-148 | valid exactly when neither TTL is negative, and otherwise records an error |
| `Compile.CompiledIsInvertible` | compile.go:58-122 | whatever compiles gives back what it stores |
| `Compile.CompiledIs` | compile.go:18-82 | which cache is compiled: the caller's own, or the logical-expiry one exactly under logical expiry, over bytes exactly when there is a transform, a codec or a type adapter |
| `Compile.CompiledConverts` | compile.go:84-122 | a compiled byte path stores E_1(...E_n(adapter(x))) with every declared transform, and reads it back the other way; the adapter is the type adapter, else the codec, else what is built in, and under logical expiry the codec, else the header |
| `Compile.CompiledRoundTrip` | compile.go:51-107 | what a successful Set through the compiled cache stored is read back, with the store's time left, until it expires |
| `Compile.CompileFailsIff` | compile.go:18-122 | exactly which configurations fail to compile, errors of transform and adapter constructors included |
| `Compile.CompileErrorIs` | compile.go:18-122 | and with which error: the refusal, else the first failing transform's, else the type adapter's, else the missing adapter |
| `Compile.LogicExpiryIgnoresTypeAdapter` | compile.go:109-122 | under logical expiry the type adapter's conversion is never used, and an error of its constructor never shows |
| `Compile.CompiledLogicBytesRunAsPlain` | compile.go:58-122 | with logical expiry, byte values, no codec and the built-in header, the compiled byte path answers as the plain path over every run whose values the transforms accept and whose deadlines fit the header |
| `LogicExpiry.LogicTTLDecorator.Get` | core/decorator/logic_expire.go:53-65 | serves the stored value; calls the loader exactly when it is past its logical deadline and there is one |
| `LogicExpiry.LogicTTLDecorator.OnExpire` | core/decorator/logic_expire.go:67-86 | a loaded value replaces the entry; a failing loader leaves it |
| `LogicExpiry.LogicTTLDecorator.GetWithTTL` | core/decorator/logic_expire.go:88-97 | serves the value with the physical time left and never refreshes |
| `LogicExpiry.LogicTTLDecorator.Set` | core/decorator/logic_expire.go:99-116 | stores the value with the logical deadline now + L, or none when L is 0 |
| `LogicExpiry.EntryOutlivesFailures` | core/decorator/logic_expire.go:53-97 | a failing refresh costs nothing: over every run in which nobody writes or deletes the key and its refreshes fail (no loader, loader error, failed write), the entry stays exactly as it is until it expires physically; every Get serves it and calls the loader exactly when it is stale and there is one, and every GetWithTTL adds the physical time left |
| `LogicExpiry.SetThenServed` | core/decorator/logic_expire.go:99-116 | that is so of a value that Set stored, with the logical deadline now + L and the physical one |
| `LogicExpiry.RefreshThenServed` | core/decorator/logic_expire.go:53-86 | and of a value loaded by a Get that itself still served the stale one |
| `LogicExpiry.AbsentUntilSet` | core/decorator/logic_expire.go:53-58 | a key that is not there stays away until it is Set: every read of it gives the store's "not found", and none calls the loader |
| `LogicExpiry.DeletedIsMissed` | core/decorator/logic_expire.go:118-124 | so it is after Delete and Clear |
| `LogicExpiry.CodedRunsAsPlain` | compile.go:71-82 | over every run, a conversion that encodes and gives back what the run writes changes no reply and no loader call |
| `LogicExpiry.BytePathIsPlainPath` | compile.go:71-122 | header and any invertible transforms: the byte path gives the replies and loader calls of the plain path over every run whose values the transforms accept and whose deadlines fit the header |
| `LogicExpiry.TotalTransformsEncode` | core/decorator/compression.go:37-43 | transforms that never fail to encode accept every run |
| `LogicExpiry.SetAnswersAlikeIff` | core/decorator/logic_expire.go:99-116 | a Set is answered alike on both paths exactly when its value can be encoded, or both refuse the TTL |
| `LogicExpiry.PathsAgreeIffDeadlineFits` | internal/adapter/logicttl_bytes_adapter.go:89-92 | the two paths refresh at the same times after a Set exactly when its deadline lies in (0, 2^63) |
| `LogicExpiry.StaleAtMostOnce` | core/decorator/logic_expire.go:53-86 | from any store and over every run whose writes read back: an item in the store is served past its logical deadline by Get at most once more than its refreshes fail |
| `LogicExpiry.PlainStaleAtMostOnce` | core/decorator/logic_expire.go:53-86 | on the plain path, over every run |
| `LogicExpiry.RefreshReplaces` | core/decorator/logic_expire.go:67-86 | a refresh that succeeds removes the stale item itself: the store no longer holds it under the key |
| `LogicExpiry.StaleOnceWhenRefreshed` | core/decorator/logic_expire.go:53-86 | when every refresh succeeds, no stored item is served past its deadline twice |
| `LogicExpiry.RefreshTakesEffect` | core/decorator/logic_expire.go:53-86 | after a successful refresh the next Get within the write-back TTL serves the loaded value, and reloads exactly if the logical TTL has passed |
| `LogicExpiry.RefreshCallsBounded` | core/decorator/logic_expire.go:53-86 | over every run of length L, from any store: at most 1 + d + L/(m+1) loader calls for a key, with m the logical TTL and d the calls that replace nothing; Sets, Deletes and physical expiry never add one |
| `LogicExpiry.RefreshSpacing` | core/decorator/logic_expire.go:53-116 | the count behind it: calls that replace the entry are more than m apart, because no write makes the entry less fresh |
| `LogicExpiry.RefreshBoundIsAttained` | core/decorator/logic_expire.go:53-86 | polling every m+1 attains the bound for every n |
| `LoaderStack.StackedCache.GetAt` | core/decorator/missed_loader.go:37-67 | a miss below is answered by the loader and written back, or by the placeholder for the key; any other error passes through |
| `LoaderStack.StackedCache.GetWithTTLAt` | core/decorator/nil_cache.go:54-82 | the same with the write-back TTL as the time left |
| `LoaderStack.StackedCache.SetAt` | core/decorator/missed_loader.go:87-89 | a Set passes through every layer to the store |
| `LoaderStack.BuiltReadIs` | core/decorator/nil_cache.go:41-82 | a read through what one Build stacks, by the configuration and the shape of the loader's error: a live entry is served; a loaded value is served and stored; where the loader's error has the sentinel inside, the placeholder is; any other error is passed on and stores nothing |
| `LoaderStack.DeletedIsGone` | core/decorator/missed_loader.go:87-97 | after Delete or Clear the key stays away, whatever happens to other keys |
| `LoaderStack.ReadIs` | core/decorator/missed_loader.go:37-85 | a hit calls nobody; a miss ends with the first loader unless that reports "not found", and then every loader inside the first protection layer is called and the protection answers |
| `LoaderStack.ReadIgnoresTTL` | core/decorator/nil_cache.go:41-82 | Get and GetWithTTL serve the same value, write the same and call the loader equally often |
| `Building.Builder.DecorateCacheMissedLoader` | cache.go:176-198 | appends the loader layer, or an error for a negative TTL |
| `Building.Builder.DecoratePenetrationProtection` | cache.go:140-157 | appends the protection layer with its placeholder function of the key, or an error for a negative TTL |
| `Building.Builder.DecorateSingleflight` | cache.go:164-174 | appends the merging layer when it is on |
| `Building.Builder.Build` | cache.go:113-137 | compiles the stages and appends the layers once more; fails with all errors so far joined, or with that of a constructor wrapped, and otherwise the decorators surround the cache the stages ask for |
| `Building.Builder.BuildTimes` | cache.go:113-137 | the n-th Build in a row stacks the layers n times around the same inner cache; it succeeds exactly when the stages compile and no TTL is negative, and otherwise joins n times the errors of one Build, or wraps the compiler's |
| `Building.BuildErrorsAre` | compile.go:18-24 | the errors of one Build, from the configuration: a factory together with staged features, and negative TTLs |
| `LoaderStack.BuildingIsIdempotent` | cache.go:113-117 | over a plain store, a cache built n times gives the replies, and leaves the store, of one built once, over every run |
| `LoaderStack.RebuildingAnyCache` | cache.go:113-137 | the same around any innermost cache (any state, and operations that depend on anything in their environment), over every run |
| `LoaderStack.PerformIsStep` | core/decorator/missed_loader.go:37-97 | the stack over the plain store, every operation of it, is the case in which the innermost cache is that store |
| `LoaderStack.CallsAfterRebuild` | cache.go:176-198 | a miss costs one loader call, except that "not found" without protection costs n |
| `LoaderStack.SpacingCount` | core/decorator/missed_loader.go:37-67 | undisturbed loader calls for one key are more than m apart when whatever a read writes lives at least m |
| `LoaderStack.LoaderCallsBounded` | core/decorator/nil_cache.go:41-67 | at most 1 + d + L/(m+1) loader calls for a key in a run of length L with d disturbances (Set, Delete, Clear, or a load that cannot be stored) |
| `LoaderStack.LoaderBoundIsAttained` | core/decorator/missed_loader.go:50-67 | polling every m+1 attains the bound for every n |
| `Singleflight.OneRunningCallPerKey` | core/decorator/loaderfn.go:12-18 | in every reachable state two running calls have different keys |
| `Singleflight.CallerReceivesItsFlight` | core/decorator/singleflight.go:22-32 | a caller joins a flight that runs at that moment, or starts one and is its starter; if it finishes, it receives that flight's result, and it panics exactly when a call of the other kind started the flight and it succeeded |
| `Singleflight.NoPanicUnlessMixed` | core/decorator/singleflight.go:54-69 | if no key has calls of both kinds in flight together, nobody panics |
| `Singleflight.MixedCallPanics` | core/decorator/singleflight.go:54-69 | otherwise, for every key and value, a GetWithTTL that joins the flight of a Get does |
| `Singleflight.GivenUpIsOut` | core/decorator/loaderfn.go:19-21 | a waiting caller that gives up after its context ended is out then and at every later moment, is never served, and leaves every flight and every other caller as they would be without it |
| `Singleflight.GivesUpIff` | core/decorator/loaderfn.go:19-21 | it can give up only while it waits and after its context has ended; otherwise nothing changes |
| `Singleflight.CancellationIsLocalIff` | core/decorator/loaderfn.go:12-28 | over every run, the end of one caller's context is felt by nobody else exactly when no flight that this caller started lands afterwards with a result that it would not have had otherwise |
| `Singleflight.EndedContextKeepsShape` | core/decorator/loaderfn.go:16-28 | in any case it changes nothing but results: the same flights start and land, and everybody else joins, waits, gives up and is served alike |
| `Singleflight.FlightSpoiltIff` | core/decorator/loaderfn.go:16-18 | flight by flight: its result differs exactly when it lands, after the end of its starter's context, with another result |
| `Singleflight.JoinersCancellationIsLocal` | core/decorator/loaderfn.go:19-28 | a caller that starts no flight affects nobody when its context ends |
| `Singleflight.StartersEndFailsOthers` | core/decorator/singleflight.go:23-28 | for every key, value and error: a flight whose starter's context ends can hand the error to a caller whose own context is alive |
| `Options.Configs.Apply` | core/cache/option.go:25-34 | applies an option in place; a group stops at the first error |
| `Options.New` | core/cache/cache.go:13-36 | applies all options, then fails with their error or that of a constructor, or folds the decorators around the factory's cache |
| `Options.ConstructIs` | core/cache/cache.go:13-36 | options of any nesting, none of which fails, build the last factory's cache inside all decorators in the order given, each with the last observable |
| `Options.WrapOutermost` | core/cache/cache.go:28-33 | the last decorator is the outermost, and the first that fails ends the construction |
| `Options.KindsAreIndependent` | core/cache/option.go:36-65 | option lists whose leaves agree kind by kind build the same cache |
| `Options.NestingIsIrrelevant` | core/cache/option.go:25-34 | any nesting builds what its flat list of leaves builds, and fails exactly when some leaf fails |
| `Options.ReportedError` | core/cache/cache.go:15-20 | which error construction reports: that of the last option failing outside any group, else that of the first failing leaf of the groups |
| `Options.KindsCommute` | core/cache/option.go:36-65 | neighbouring options of different kinds can be exchanged, failing ones too |

## Left out

- Redis, valkey, ristretto and freecache stores: clients of code that is not part of this model; a level is a `SlowMapStore` that may fail, lose replies and drop entries.
- JSON, gob and the compression algorithms: abstract pairs of conversions; what they must satisfy is a precondition (`Invertible`, `AllEncode`).
- Type assertions on stored values of a foreign type (`ErrTypeMismatch`): stores are typed here.
- Building.Builder.Build: leaves out the observability decorators and the options given by the caller, because `Options` has the general case; only the three library decorators surround the cache.
- A factory that was never given: calling it panics in Go; here construction answers with an error.
- Observability, logging, tags, call options, store names, and the error callback of the write-back builder: they change no result.
- Custom fetch policies, filters and write-back functions: only the ones the library ships are modelled.
- The same cache used as two levels, over runs: the methods of `MultiCache` say what happens then, but the runs and their laws are about different caches.
- Delete and Clear on the single-cache decorators: they only pass through; the runs include them as events on the store.
- Overlapping Gets on the multi-level cache: a Get is one step, except for its deferred write-backs, which interleave with everything; the delay of the staleness bound is theirs.
- Clock reads within one call: an operation reads the clock once, except in `StoreInterleaving`, where each clock read is a step of its own or part of the step before a lock is taken.
- 64-bit overflow of durations and of `time.Time`: only the header's 64-bit wrap-around is modelled; elsewhere time is unbounded.
- Contexts, except in `Singleflight`: elsewhere a call whose context has ended is a call that fails.
- Panics of background write-backs, fairness, and goroutine start-up: a deferred write-back is a pending task that may run at any later step.
- Values of interface type in `Singleflight`: a result of the other kind always fails the type assertion, as for concrete types.
