# A verified model of the Cosmos SDK core

Dafny 4.11 models, with proofs, of four parts of the Cosmos SDK. `dafny verify dfyconfig.toml` checks the
whole project.

**The store stack.** `CacheKV` is the buffer of the cache-wrap of a key-value store: a map of cached values,
a set of unsorted dirty keys and a lazily sorted list. `KVStores` builds stacks, in any order and to any depth,
of cache-wraps and stores under a key prefix over mounted stores (`MountedStores`), and `Iterators` has their
cursors. `MergeSpec`, `PrefixSpec` and `Listing` say what these must agree with: a plain map under an overlay
of writes, the part of a map under a prefix, and the ordered listing of a range. `Nesting` runs arbitrary
programs that open and close wraps over any stack and compares them with one plain map; `Prefix` has the laws
of stores side by side. `CacheMulti` is the multi-store of wraps, `IavlIterator` the three-party channel
protocol behind a tree iterator, as a state machine over all interleavings. `Pruning`, `Iavl` and `RootMulti`
are versions, what is kept of them on disk, and what survives a restart.

**The ABCI application.** `BaseAppSpec` is the application as a state machine on plain contents; handlers,
ante handler and block handlers are arbitrary deterministic functions that read the contents and return
store operations, a gas meter and success, error or panic. `TxLaws` and `CallLaws` say from those handlers alone
what each transaction and each call does, and `BaseAppLaws` has the theorems over whole runs.
`TxRunner` and `BaseApp` are the same application as an object over the store stack, with cache-wraps
opened, written and dropped as the source does; `Application.HandleAll` connects the two for every sequence
of calls. `Gas` is the gas meters.

**Numbers and coins.** `Decimal`, `Powers`, `PowerErrors`, `DecimalText` and `SortableDec` are the 18-digit decimals:
rounding, quotients, powers, text and sortable bytes. `CoinSpec`, `Coins` and `DecCoins` are coin sets as
sorted sparse vectors. `Ints` and `Widths` connect the bounds on all these numbers with the bit lengths that
the source checks.

**Encodings.** `Varints`, `Wire` and `Messages` are the protobuf writer that fills a buffer backward and
its forward reader, compared with the grammar of wire-format fields; varints follow the "Base 128 Varints"
section of the Protocol Buffers Encoding guide. `CompactBits` is the compact bit array.

Conventions. `Result` has `Panic` for a panic or an error that ends the call, and methods of iterators
return false or `None` where the source panics. Keys, values and denoms are byte strings; an absent end of
a range is `None`. Go integers are unbounded integers with the checks or the wrap-around of their width
written out. A decimal is its scaled integer. Where a loop of the source fills or changes a slice, a map or
a `big.Int` in place, the model is a method on an array, a field or an object, proved against a function.

Where a property is false of the code, the model keeps the code and states exactly when it holds:
`QuoRoundUp` is not always a ceiling (`Decimal.QuoRoundUpExact`, `Decimal.NotTheCeiling`); sortable bytes
reverse the order of negative decimals (`SortableDec.SortableOrder`); `NewDecFromStr` accepts texts outside its
documented form (`DecimalText.AcceptedTexts`, `DecimalText.DocumentedTexts`, `DecimalText.DoubleMinus`);
`IsValid` of coins checks only the first denom in full (`Coins.IsValid`, `Coins.InvalidDenomAccepted`);
`CompactUnmarshal` crashes on a varint of more than 64 bits instead of returning an error
(`CompactBits.EveryInput`, `CompactBits.CrashingInput`), and accepts an array of almost 2^64 bits without bytes
(`CompactBits.AcceptedArrays`, `CompactBits.AcceptedWithoutBits`); a transaction may be reported as failed after
its writes were kept (`BaseAppLaws.WrittenButReportedFailed`, `BaseAppLaws.FailedYetWritten`).

## Model

| member | source | states |
|---|---|---|
| `ByteOrder.CompareFlips` | store/cachekv/mergeiterator.go:178-189 | bytes.Compare is antisymmetric and zero exactly on equal keys, so both directions of an iteration are strict total orders |
| `MergeSpec.MergeListsOverlay` | store/cachekv/mergeiterator.go:62-151 | merging an ordered parent listing with an ordered listing of writes lists the overlay of the two maps in order: shadowed keys once, deleted keys never, in either direction |
| `MergeSpec.MergeOfWindows` | store/cachekv/store.go:159-176 | cutting the same range out of the parent and out of the writes and merging gives that range of the overlay |
| `Iterators.KeepInDomain` | store/cachekv/memiterator.go:20-45 | the scan with the early break keeps exactly what a full scan of the ascending list would keep |
| `Iterators.KeptListsWindow` | store/cachekv/memiterator.go:20-45 | what is kept lists the range of the buffered writes, so leaving the scan at the first key behind the range loses nothing |
| `Iterators.MemIterator.constructor` | store/cachekv/memiterator.go:20-45 | the cursor starts on the listing of the range of the buffered writes, in its direction |
| `Iterators.MemIterator.Next` | store/cachekv/memiterator.go:61-69 | drops the next write at whichever end the direction reads from, and refuses exactly when there is none |
| `Iterators.MergeIterator.constructor` | store/cachekv/mergeiterator.go:25-33 | what remains is the merge of the parent's remainder with the writes |
| `Iterators.MergeIterator.SkipCacheDeletes` | store/cachekv/mergeiterator.go:191-197 | skipping leading deletions up to the parent's key leaves what remains unchanged |
| `Iterators.MergeIterator.SkipUntilExistsOrInvalid` | store/cachekv/mergeiterator.go:202-248 | terminates with the cursors settled on a live entry, answers whether anything remains, and changes nothing of it |
| `Iterators.MergeIterator.Valid` | store/cachekv/mergeiterator.go:57-60 | true exactly if something remains; may move the cursors but not what remains |
| `Iterators.MergeIterator.Next` | store/cachekv/mergeiterator.go:62-89 | drops exactly the first remaining pair, and refuses exactly at the end |
| `Iterators.MergeIterator.Key` | store/cachekv/mergeiterator.go:92-120 | the key of the first remaining pair, leaving what remains unchanged |
| `Iterators.MergeIterator.Value` | store/cachekv/mergeiterator.go:123-151 | the value of the first remaining pair, leaving what remains unchanged |
| `CacheKV.BufferWrite` | store/cachekv/store.go:223-232 | recording a write keeps the buffer coherent: every dirty key waits in the unsorted set or sits in the sorted list with its current value, the list ascends strictly and holds only dirty keys, clean entries equal the parent; it is seen as that write on the overlay |
| `CacheKV.MergeSorted` | store/cachekv/store.go:195-221 | merging the newly sorted keys into the sorted list gives an ascending list that binds both, the new values winning |
| `CacheKV.SortRange` | store/cachekv/store.go:178-221 | sorting the waiting keys of any range keeps the buffer coherent and makes the range of the list equal the range of the dirty writes |
| `KVStores.Store.constructor` | store/cachekv/store.go:36-43 | a new wrap shows exactly what its parent shows, whatever kind of store that is |
| `KVStores.Store.Get` | store/cachekv/store.go:51-66 | answers from the overlay; caching the answer changes no level of the stack |
| `KVStores.Store.Set` | store/cachekv/store.go:69-77 | changes the view at that key and nothing below |
| `KVStores.Store.Delete` | store/cachekv/store.go:86-93 | removes the key from the view and changes nothing below |
| `KVStores.Store.DirtyItems` | store/cachekv/store.go:178-221 | after it the sorted list has every dirty write of the range, and no level of the stack has changed |
| `KVStores.Store.Iterator` | store/cachekv/store.go:150-176 | for any range, direction and history, what the iterator yields is the ordered range of the view, and opening it changes no level |
| `KVStores.Store.Write` | store/cachekv/store.go:96-131 | the level below becomes the view, the view stays, everything further down is untouched, and the buffer is empty |
| `Nesting.Drain` | store/cachekv/mergeiterator.go:57-151 | asking Valid, Key and Value before each Next reads exactly what remained, and then nothing remains |
| `Nesting.Do` | store/cachekv/store.go:51-176 | each call on the top of a stack of write buffers and prefixes, in any order and of any depth, answers and acts as on a plain map, and touches no level below a buffer and nothing outside a prefix |
| `Nesting.Run` | store/cachekv/store.go:96-137 | a program that opens, writes back or drops nested wraps to any depth, over any such stack, answers and acts as on a plain map; nothing else that the store stands on changes |
| `Nesting.ReplayIsFlat` | store/cachekv/store.go:96-137 | such a program amounts to replaying, in order, the calls that survive dropped wraps on one plain map |
| `Nesting.RepliesSeeTheRest` | store/cachekv/store.go:96-137 | every answer in such a program is that of a plain map on which exactly the calls visible there have been made: those of dropped wraps are not |
| `Nesting.ReadsBack` | store/cachekv/store.go:51-93 | after a call a read finds the value set, nothing under a deleted key, and elsewhere what was there |
| `Nesting.ScanAnswers` | store/cachekv/store.go:150-176 | a scan answers with exactly the pairs whose keys are not below the start and below the end, each once, in the order asked for |
| `Nesting.WriteDown` | store/cachekv/store.go:96-131 | writing all buffers of a stack of buffers from the innermost outwards brings every level to the view from the top |
| `Nesting.ReadAll` | store/cachekv/store.go:150-176 | iterating over everything recovers the view |
| `CacheMulti.MultiStore.OfMounts` | store/cachemulti/store.go:35-57 | one empty buffer over each mounted store: both levels show the mounted contents |
| `CacheMulti.MultiStore.OfMulti` | store/cachemulti/store.go:68-76 | one empty buffer over each buffer: the view is the parent's and everything below is the parent's |
| `CacheMulti.MultiStore.Write` | store/cachemulti/store.go:111-116 | every substore is written into its parent: the view stays, each level below gets it, what is further down is untouched, in any order of substores |
| `CacheMulti.MultiStore.Perform` | store/cachemulti/store.go:143-150 | a sequence of calls on substores acts on the view as on plain maps and stops at the first unknown store; nothing below changes |
| `CacheMulti.PerformedCompletes` | store/cachemulti/store.go:143-150 | a sequence of calls completes exactly if every one goes to a mounted store |
| `CacheMulti.PerformedPerStore` | store/cachemulti/store.go:143-150 | each store then holds what its own calls, in order, make of it |
| `PrefixSpec.PrefixEndBytes` | store/types/utils.go:68-91 | a byte string has the prefix exactly if it lies from the prefix up to the end bytes; no end bytes means unbounded |
| `Prefix.KVStorePrefixIterator` | store/types/utils.go:10-17 | over any kind of store, yields exactly the keys with the prefix, in either direction |
| `PrefixSpec.RangeHasPrefix` | store/prefix/store.go:85-117 | the range asked of the parent holds only keys with the prefix |
| `PrefixSpec.StrippedRange` | store/prefix/store.go:85-117 | the parent's range with the prefix stripped is the ordered range of what lies under the prefix, for any start, end and direction |
| `Iterators.PrefixIterator.constructor` | store/prefix/store.go:127-135 | yields the parent's pairs up to the first key without the prefix, stripped |
| `Iterators.PrefixIterator.Valid` | store/prefix/store.go:143-145 | true exactly if a pair is left |
| `Iterators.PrefixIterator.Next` | store/prefix/store.go:148-157 | drops the first pair, and refuses exactly when there is none |
| `Iterators.PrefixIterator.Key` | store/prefix/store.go:160-169 | the first key without the prefix |
| `Iterators.PrefixIterator.Value` | store/prefix/store.go:172-178 | the first value |
| `KVStores.PrefixStore.Get` | store/prefix/store.go:61-64 | looks up the key in what lies under the prefix |
| `KVStores.PrefixStore.Set` | store/prefix/store.go:72-76 | sets the key under the prefix; nothing outside the prefix and nothing that the parent stands on changes |
| `KVStores.PrefixStore.Delete` | store/prefix/store.go:79-81 | deletes the key under the prefix; nothing outside the prefix and nothing that the parent stands on changes |
| `KVStores.PrefixStore.Iterator` | store/prefix/store.go:85-117 | yields the ordered range of what lies under the prefix |
| `KVStores.PrefixStore.constructor` | store/prefix/store.go:23-28 | shows what lies under the prefix of its parent, which may be any store |
| `PrefixSpec.Incomparable` | store/prefix/store.go:12-28 | what is outside one prefix determines everything under a prefix that neither extends it nor is extended by it |
| `Prefix.Beside` | store/prefix/store.go:61-117 | any program through one of two such stores over the same parent, cache-wraps of it included, is invisible through the other |
| `Prefix.PartOfPart` | store/prefix/store.go:23-41 | a prefix store over a prefix store is the store under both prefixes together |
| `IavlIterator.StepKeeps` | store/iavl/store.go:358-494 | every step of producer, initializer and consumer keeps the protocol invariant |
| `IavlIterator.ConsumerSeesTheRange` | store/iavl/store.go:358-494 | in every interleaving each reply is that of a plain cursor over the range: after j calls of Next the j-th pair, invalid exactly past the end; after Close each reply is that of a plain cursor over at most one pair of the range, the current one if any call was answered before, and a second Close panics; no goroutine panics |
| `IavlIterator.CallsEnd` | store/iavl/store.go:374-450 | from any state only a bounded number of steps happen before the consumer starts another call |
| `IavlIterator.NothingBlocks` | store/iavl/store.go:374-450 | when no step is left no call is blocked, and after Close the producer and the initializer have finished |
| `Pruning.CommitRetains` | store/types/pruning.go:42-66 | one commit moves the set of retained heights by exactly what is flushed and what is superseded |
| `Pruning.LatestIsRetained` | store/types/pruning.go:58-66 | the last flushed height is 0 or a retained height |
| `Iavl.DiskHoldsRetained` | store/iavl/store.go:124-150 | for every valid option and any number of commits the disk holds exactly the flushed heights that are snapshots or the last flushed one, each with the contents committed at it |
| `Iavl.DiskByNumbers` | store/iavl/store.go:124-150 | in numbers: a height is on disk, with what was committed at it, exactly if it has been committed, is a multiple of the flush interval, and is a multiple of the snapshot interval or less than one flush interval old |
| `Iavl.IavlStore.Commit` | store/iavl/store.go:124-150 | the working contents become the next version, on disk if its height is flushed, and exactly the superseded flush is deleted |
| `Iavl.IavlStore.LoadVersion` | store/iavl/store.go:42-87 | loads exactly the versions on disk, and returns to the contents committed at them |
| `RootMulti.RootStore.CommitStores` | store/rootmulti/store.go:642-662 | the contents of every tree become its next version, on disk if the height is flushed, every transient store is emptied, databases are left alone, and exactly the stores that are not transient are reported |
| `RootMulti.RootStore.Commit` | store/rootmulti/store.go:293-310 | the version advances by one, the contents of every tree become that version, each tree holds exactly its retained heights, and at flushed heights only the latest version and a commit info are persisted, with the version of every tree and -1 for every database |
| `RootMulti.RootStore.LoadLatestVersion` | store/rootmulti/store.go:141-208 | after a restart the persisted latest version loads: every tree shows what was committed at that height, or nothing at height 0, and its history ends there; transient stores are empty and databases keep their contents |
| `RootMulti.CommitsThenReload` | store/rootmulti/store.go:141-310 | after any sequence of commits a restart gives every tree what was committed at the last flushed height |
| `RootMulti.CommitThenReload` | store/rootmulti/store.go:141-310 | a commit at a flushed height survives a restart: every tree shows the committed contents again |
| `RootMulti.LatestLoads` | store/rootmulti/store.go:618-634 | at every commit boundary the persisted latest version is loadable in every tree |
| `TxRunner.CachedAnte` | baseapp/baseapp.go:540-577 | the ante handler runs on a cache-wrap of the store stack, which is written back exactly when it completes and succeeds; nothing below the state is touched |
| `TxRunner.RunAnteOn` | baseapp/baseapp.go:540-577 | the ante handler on the store stack, and the context to go on with: the one given or the one returned, with its own gas meter or the shared one, as on plain contents |
| `TxRunner.RunMsgsOn` | baseapp/baseapp.go:579-589 | the messages on a second cache-wrap: written back exactly in Deliver and when all succeed, nothing below the state touched |
| `TxLaws.RunIsTrace` | baseapp/baseapp.go:605-649 | a list of messages ends exactly where its messages lead: each has a handler that succeeds on what the previous one left, up to the end or to the first that has none, fails or panics |
| `TxLaws.BodyLaw` | baseapp/baseapp.go:426-598 | what a transaction leaves, its last gas meter and whether it goes through are determined by what the ante handler and the message handlers do, in every mode |
| `TxLaws.TxLaw` | baseapp/baseapp.go:470-598 | a transaction does exactly this and nothing else, to contents, header, shared and block gas meter, answer, gas wanted and gas used, said from the handlers alone |
| `TxLaws.SuccessLaw` | baseapp/baseapp.go:470-598 | a transaction is answered as successful if and only if the block is not spent, it has messages and all are valid, the ante handler completes and accepts it, all messages succeed in turn in Deliver and Simulate, and in Deliver the charge stays within 64 bits and the limit |
| `TxRunner.RunBodyOn` | baseapp/baseapp.go:426-464 | the body of runTx on the store stack does what the handlers say, as BodyLaw states it; in Simulate the state is not touched |
| `BaseApp.RunApart` | baseapp/baseapp.go:470-598 | running a transaction on one state changes neither the mounted stores nor the other state |
| `BaseApp.Application.constructor` | baseapp/baseapp.go:243-252 | a check state over the loaded contents and no deliver state |
| `BaseApp.Application.RunTx` | baseapp/baseapp.go:470-598 | runTx on the objects does to the selected state, and answers, exactly what TxLaw says, and succeeds exactly as SuccessLaw says; the contents left are those before, after the ante handler or after all messages, and the other state and the mounted stores are untouched |
| `BaseApp.Application.InitChain` | baseapp/abci.go:19-66 | a new deliver state holds the committed contents, the stored consensus parameters and what the init chainer does on them, the check state starts over; it panics exactly if the parameters cannot be stored or the init chainer panics |
| `BaseApp.Application.BeginBlock` | baseapp/abci.go:104-144 | at the right height only, the begin blocker does its calls on the deliver state or on new contents, under the header of the block, with an unused block gas meter of the limit that the contents set |
| `BaseApp.Application.DeliverTx` | baseapp/abci.go:203-222 | bytes that are no transaction are refused and change nothing; a transaction is run on the deliver state only and answered as TxLaw and SuccessLaw say |
| `BaseApp.Application.EndBlock` | baseapp/abci.go:147-158 | the end blocker does its calls on the deliver state; it panics exactly if there is none or the end blocker panics |
| `BaseApp.Application.CheckTx` | baseapp/abci.go:165-196 | bytes that are no transaction are refused and change nothing; a transaction is run on the check state only and answered as TxLaw and SuccessLaw say |
| `BaseApp.Application.SimulateTx` | baseapp/baseapp.go:426-443 | changes no contents, and answers as TxLaw and SuccessLaw say |
| `BaseApp.Application.Commit` | baseapp/abci.go:230-270 | the mounted stores get the deliver state's contents, every store is committed, the check state starts over from them and there is no deliver state |
| `CallLaws.EveryCall` | baseapp/abci.go:19-270 | every ABCI call does exactly what its law says and nothing else |
| `CallLaws.InitChainLaw` | baseapp/abci.go:19-66 | InitChain, said from the parameter store and the init chainer: contents, gas meters, check state, and exactly when it panics |
| `CallLaws.BeginBlockLaw` | baseapp/abci.go:104-144 | BeginBlock, said from the heights, the gas limit and the begin blocker |
| `CallLaws.EndBlockLaw` | baseapp/abci.go:147-158 | EndBlock, said from the end blocker |
| `CallLaws.DeliverTxLaw` | baseapp/abci.go:203-222 | DeliverTx runs its transaction on the deliver state and touches nothing else |
| `CallLaws.CheckLaw` | baseapp/abci.go:165-196 | checking and simulating run the transaction on the check state and touch nothing else |
| `CallLaws.CommitLaw` | baseapp/abci.go:230-270 | Commit, store by store: the deliver state's contents without transient stores, at the next height |
| `BaseApp.Application.HandleAll` | baseapp/abci.go:19-270 | any sequence of ABCI calls on the objects does what it does on plain contents, and panics exactly when that does |
| `BaseAppLaws.TxIsAtomic` | baseapp/baseapp.go:470-598 | whatever fails or panics: ante writes reach the state exactly when the ante handler accepts and the mode is not Simulate, message writes exactly in Deliver when all messages succeed |
| `BaseAppLaws.LastMessage` | baseapp/baseapp.go:605-649 | the last message runs on what the others left, exactly if they all succeed |
| `BaseAppLaws.AllMessagesSucceed` | baseapp/baseapp.go:605-649 | a message list succeeds if and only if every message succeeds on what the messages before it left |
| `BaseAppLaws.CheckingIsInvisible` | baseapp/abci.go:104-270 | however CheckTx, ReCheck and Simulate are interleaved, the committed states and heights, and whether the process panics, are those of the ordered calls alone |
| `BaseAppLaws.SameBlocksSameCommits` | baseapp/abci.go:104-270 | two runs with the same ordered calls commit the same states |
| `BaseAppLaws.HeightsAdvance` | baseapp/abci.go:230-270 | heights advance by exactly one per Commit, and the n-th commit has the n-th height |
| `BaseAppLaws.IdleWhileChecking` | baseapp/abci.go:165-196 | between a Commit and the next block checking cannot fail, and changes nothing but the check state |
| `BaseAppLaws.CommitResets` | baseapp/abci.go:230-270 | after Commit the check state equals the committed contents, transient stores are empty, all others are the deliver state's |
| `BaseAppLaws.ChargeIsExact` | baseapp/baseapp.go:517-532 | an admitted transaction adds exactly its meter's consumed-to-limit amount, and on leaving 64 bits the count restarts at zero |
| `BaseAppLaws.BlockGasIsSum` | baseapp/baseapp.go:479-532 | within 64 bits the block counts the sum of the admitted charges, and stood below its limit before the last of them |
| `BaseAppLaws.SpentBlockRejects` | baseapp/baseapp.go:479-482 | once the limit is reached every later transaction is rejected with no state change |
| `BaseAppLaws.WrittenButReportedFailed` | baseapp/baseapp.go:517-532 | a transaction whose messages succeed is written, and reported as failed exactly if its charge takes the block past its limit or, with or without a limit, out of 64 bits |
| `BaseAppLaws.FailedYetWritten` | baseapp/baseapp.go:517-532 | concrete transactions that are written and reported as failed, in a block with and in one without a gas limit |
| `BaseAppLaws.BlockHeights` | baseapp/baseapp.go:386-398 | in a run that does not panic every block begins at the height that the commits have reached plus one |
| `BaseAppLaws.GenesisIsCommitted` | baseapp/abci.go:19-66 | what the init chainer sets in a store that is not transient is in the first committed contents if no handler writes it again, whatever calls come in between |
| `BaseAppLaws.BlockStarts` | baseapp/baseapp.go:366-383 | a block starts under its header with an unused gas meter of exactly the limit the contents set, and touches neither committed nor check state |
| `Gas.MeterAdmits` | store/types/gas.go:66-103 | a meter admits a sequence of charges exactly if their total stays within 64 bits and its limit, and has then counted and reports exactly the total; otherwise it reports its limit or has lost the count |
| `Gas.OutOfGasExactly` | store/types/gas.go:101-103 | a meter is out of gas exactly if it has a limit and its count is not below it, which is when it admits no further unit |
| `Gas.MeterStops` | store/types/gas.go:75-103 | the first charge that takes the total past the limit is counted and panics, the first that takes it out of 64 bits panics and sets the count to zero, for either kind of meter |
| `Decimal.BigInt.ChopPrecisionAndRound` | types/decimal.go:484-514 | in place: the nearest multiple of 10^18, ties to the even one, for every sign |
| `Decimal.BigInt.ChopPrecisionAndRoundUp` | types/decimal.go:516-536 | in place: the ceiling, for every sign |
| `Decimal.BigInt.ChopPrecisionAndTruncate` | types/decimal.go:560-562 | in place: truncation toward zero |
| `Decimal.RoundIsHalfEven` | types/decimal.go:484-514 | the rounded value meets the definition of round half to even |
| `Decimal.HalfEvenUnique` | types/decimal.go:484-514 | that definition determines the value |
| `Decimal.RoundMonotone` | types/decimal.go:484-514 | rounding is monotone |
| `Decimal.MulIsNearest` | types/decimal.go:236-245 | the product is the exact one rounded half to even, and panics exactly if that has more than 315 bits |
| `Decimal.MulTruncateIsTruncation` | types/decimal.go:247-256 | the truncated product is the exact one without its last 18 digits, and panics exactly if that does not fit |
| `Decimal.MulSigns` | types/decimal.go:236-245 | the product is odd in each factor, panics included |
| `Decimal.MulMonotone` | types/decimal.go:236-245 | the product with a non-negative factor is monotone |
| `Decimal.QuoTruncateExact` | types/decimal.go:293-305 | dividing twice loses nothing: the result is the exact ratio truncated, for all signs |
| `Decimal.QuoNearlyNearest` | types/decimal.go:278-290 | the quotient is within 1/2 + 10^-18 units in the last place of the exact ratio |
| `Decimal.QuoOrder` | types/decimal.go:278-320 | for non-negative quotients truncated, rounded and rounded-up quotient are in this order within one unit |
| `Decimal.QuoClose` | types/decimal.go:278-320 | the quotient of big integers is short of the exact ratio by less than one and never past it |
| `Decimal.QuoIsNearest` | types/decimal.go:278-290 | the quotient is the one with 18 more digits rounded half to even, and panics exactly if that does not fit |
| `Decimal.QuoUpIsCeiling` | types/decimal.go:308-320 | the quotient rounded up is the ceiling of the one with 18 more digits, and panics exactly if that does not fit |
| `Decimal.QuoRoundUpExact` | types/decimal.go:308-320 | the result is the ceiling of the exact ratio if and only if the ratio is negative, the long quotient is exact, or it does not end in 18 zeros |
| `Decimal.SmallDivisor` | types/decimal.go:308-320 | for every divisor between 0 and 1 that condition holds |
| `Decimal.NotTheCeiling` | types/decimal.go:308-320 | a concrete quotient that is rounded up to less than the exact ratio |
| `Decimal.CeilIsSmallestWhole` | types/decimal.go:590-608 | the smallest whole number not below the decimal |
| `Powers.Power` | types/decimal.go:381-398 | on whole numbers the power is exact, and it panics exactly if the power itself has more than 315 bits; the first power is the number and the second its rounded square, for all numbers; for numbers from zero to one it never panics and is within (n - 1) / 2 units in the last place of the exact n-th power |
| `PowerErrors.NearProduct` | types/decimal.go:381-398 | the rounded product of two numbers near powers is near the power of the sum, their errors and one more rounding error adding up |
| `Powers.RelativePow` | types/uint.go:242-274 | on multiples of the scale the result is exactly k^n times the scale whenever it returns; for n of at least 2 and x not 0 it returns if and only if k^n times the scale squared fits 256 bits with half the scale to spare; up to the second power the exact result for all numbers; for numbers of at most the scale it is within (n - 1) / 2 units of the exact power; without a scale it panics exactly when it multiplies |
| `DecimalText.String` | types/decimal.go:419-469 | the sign, the whole part without leading zeros, the point and all 18 decimal places |
| `DecimalText.ReadsFraction` | types/decimal.go:136-184 | digits, a point and at most 18 digits are read as exactly that number, with either sign |
| `DecimalText.ReadsWhole` | types/decimal.go:136-184 | digits alone are read as exactly that whole number |
| `DecimalText.RoundTrip` | types/decimal.go:136-184 | what String prints is read back, for every decimal of any size and sign |
| `DecimalText.EveryText` | types/decimal.go:136-184 | for every text exactly what is returned: the number, or which of the errors |
| `DecimalText.AcceptedTexts` | types/decimal.go:136-184 | a text is accepted if and only if, behind one optional minus, it has at most one point with something on both sides, at most 18 characters behind it, and without the point is an optional second sign and digits; with its value |
| `DecimalText.DocumentedTexts` | types/decimal.go:123-135 | the documented form is exactly the accepted texts without a second sign and with a digit in front |
| `DecimalText.DoubleMinus` | types/decimal.go:141-179 | outside that form: a second minus sign is accepted and cancels the first, even with no digit at all |
| `SortableDec.MaxSortableIsQuotient` | types/decimal.go:612 | the largest sortable decimal is 10^18 |
| `SortableDec.SortableOrder` | types/decimal.go:612-642 | byte order is numeric order on all decimals in bounds, sentinels included, except that it is reversed exactly among the negative ones above the smallest |
| `SortableDec.SortableExactly` | types/decimal.go:612-628 | exactly the decimals of magnitude at most 10^18 have sortable bytes |
| `Widths.DecimalWidth` | types/decimal.go:236-245 | the bound on decimals is the check for more than 255 + 60 bits |
| `Widths.IntWidth` | types/int.go:219-226 | the bound on amounts is the check for more than 255 bits |
| `Widths.UintWidth` | types/uint.go:214-222 | the bound on Uint is the check for more than 256 bits |
| `Ints.BitLengthWithin` | types/int.go:219-226 | a bit-length check bounds the magnitude by a power of two |
| `Ints.MulIsExact` | types/int.go:249-260 | the early check on the factors never refuses a product that fits: Mul panics exactly if the product has too many bits |
| `Coins.AmountOfIsLinear` | types/coin.go:467-493 | on sorted sets the binary search finds what a linear search finds |
| `Coins.AmountOfInvalid` | types/coin.go:467-493 | on any slice it panics exactly if the denom is invalid |
| `Coins.RemoveZeroCoins` | types/coin.go:548-561 | in place: what is left are the non-zero coins in order, and a set without zeros is not touched |
| `CoinSpec.SumAdds` | types/coin.go:242-288 | the merged set is sorted, has no zeros, and holds the sum of both amounts of every denom |
| `CoinSpec.CheckedSumMeaning` | types/coin.go:242-288 | the merge panics exactly if some denom's amounts add up to more bits than an amount may have |
| `CoinSpec.SameAmountsSameCoins` | types/coin.go:187-219 | sorted sets without zeros are determined by their amounts |
| `CoinSpec.SumCommutes` | types/coin.go:233-235 | addition is commutative |
| `CoinSpec.SumAssociates` | types/coin.go:233-235 | addition is associative |
| `CoinSpec.SubtractionUndoesAddition` | types/coin.go:327-330 | subtracting what was added gives back the set |
| `Coins.SafeAdd` | types/coin.go:242-288 | on any slices the checked merge; of sorted sets that is the sum of both, or a panic exactly on overflow; an argument without zeros is left unmodified |
| `Coins.Negative` | types/coin.go:534-545 | every amount negated |
| `Coins.SafeSub` | types/coin.go:327-330 | on any slices the checked merge with the negated set, and whether it has a negative amount; of sorted sets it panics exactly on overflow, never if all amounts are positive, and reports a negative amount exactly if the second set is not covered by the first |
| `Coins.IsAllGTE` | types/coin.go:360-376 | on valid sets: true exactly if every amount of the second set is covered, for all denoms; on any sorted first set: true exactly if the second is empty, or the first is not and reaches the amount of every coin of it; it panics only on an invalid denom |
| `Coins.IsAllGT` | types/coin.go:334-355 | on valid sets: true exactly if the first is not empty and exceeds every coin of the second; on any sorted first set also every denom must occur with an amount that is not zero; it panics only on an invalid denom |
| `Coins.DenomsSubsetOf` | types/coin.go:292-305 | on valid sets: true exactly if every denom of the first occurs in the second, the shortcut on lengths included; on any sorted second set: exactly if the first is not longer and each denom has an amount that is not zero |
| `Coins.IsAnyNegative` | types/coin.go:521-529 | true exactly if some amount is negative |
| `Coins.IsValid` | types/coin.go:187-219 | exactly what is checked; every set that is sorted, positive and of valid denoms passes, and what passes is such a set exactly if every denom is valid |
| `Coins.InvalidDenomAccepted` | types/coin.go:196-219 | a concrete set that passes IsValid although its second denom is invalid |
| `DecCoins.TruncateDecimal` | types/dec_coin.go:207-219 | for every slice of coins: both results are valid sets, whole and change add up to the input in every denom, and it panics exactly if a denom is invalid, an amount is negative, or the whole parts or the rests of a denom add up to too many bits; of a sorted set every change is below one |
| `DecCoins.SortedUnsplittable` | types/dec_coin.go:207-219 | a sorted set can be split exactly if every denom is valid, every amount non-negative and every whole part has at most 255 bits |
| `DecCoins.TruncateCoinSplits` | types/dec_coin.go:114-118 | one coin splits into its whole part and the rest, and panics exactly if it is invalid, negative or its whole part too large |
| `DecCoins.Intersect` | types/dec_coin.go:319-329 | on valid sets: a valid set with the smaller amount of every denom; on any sorted second set: the first set with the smaller amounts, without zeros; it panics exactly if a denom of the first is invalid |
| `Varints.EncodeVarint` | types/types.pb.go:799-809 | the varint ends right in front of the offset, starts at the offset returned, and the rest of the buffer is untouched |
| `Varints.SovIsLength` | types/types.pb.go:930-932 | the computed size is the length of the varint |
| `Varints.ReadVarint` | types/types.pb.go:1371-1385 | the read loop is the specified one; every read is in bounds for any input |
| `Varints.EveryVarint` | types/types.pb.go:1371-1385 | a varint is read exactly if it ends within ten bytes; one that is longer and one that ends early are different errors |
| `Varints.VarintValue` | types/types.pb.go:1371-1385 | what is read is the number that the groups of seven bits stand for, within 64 bits, however it was written |
| `Varints.RoundTrip` | types/types.pb.go:1371-1385 | every 64-bit word is read back wherever its varint stands, and reading stops right behind it |
| `Wire.SkipTypes` | types/types.pb.go:1817-1893 | terminates with all reads in bounds on any input, with lengths that wrap around treated as errors, as specified |
| `Wire.SkipField` | types/types.pb.go:1817-1893 | every well-formed field of any wire type, nested groups included, is skipped exactly |
| `Wire.SkipCutField` | types/types.pb.go:1817-1893 | a field of any wire type that is cut off, nested groups included, is not skipped within the input |
| `Messages.UnmarshalGasInfo` | types/types.pb.go:1451-1541 | terminates with all reads in bounds on any input, and is the specified reading |
| `Messages.GasInfoDecodes` | types/types.pb.go:1451-1541 | any well-formed message decodes to the last value of each field, whatever unknown fields stand between |
| `Messages.GasInfoTruncated` | types/types.pb.go:1451-1541 | a message that ends inside a field, known or unknown, is refused |
| `Messages.GasInfoWrongType` | types/types.pb.go:1451-1541 | a known field of the wrong wire type is refused, whatever follows |
| `Messages.GasInfoBadTag` | types/types.pb.go:1451-1541 | field number 0, a stray end of a group and wire types that do not exist are refused, whatever follows |
| `Messages.MarshalGasInfo` | types/types.pb.go:670-701 | written backward, the non-zero fields in order fill exactly the computed size |
| `Messages.GasInfoSize` | types/types.pb.go:877-891 | the computed size is the length of the encoding |
| `Messages.GasInfoRoundTrip` | types/types.pb.go:1451-1541 | every GasInfo is restored from its encoding |
| `Messages.UnmarshalValAddresses` | types/types.pb.go:1366-1450 | terminates with all reads in bounds on any input, and is the specified reading |
| `Messages.AddressesDecode` | types/types.pb.go:1366-1450 | any well-formed message decodes to its addresses in order, whatever unknown fields stand between |
| `Messages.AddressesTruncated` | types/types.pb.go:1366-1450 | a message that ends inside a field, known or unknown, is refused |
| `Messages.AddressesWrongType` | types/types.pb.go:1366-1450 | field 1 of the wrong wire type is refused, whatever follows |
| `Messages.AddressesBadTag` | types/types.pb.go:1366-1450 | field number 0, a stray end of a group and wire types that do not exist are refused, whatever follows |
| `Messages.MarshalValAddresses` | types/types.pb.go:638-668 | written backward from the last address, the addresses in order fill exactly the computed size |
| `Messages.ValAddressesSize` | types/types.pb.go:862-875 | the computed size is the length of the encoding |
| `Messages.AddressesRoundTrip` | types/types.pb.go:1366-1450 | every list of addresses is restored from its encoding |
| `CompactBits.NewCompactBitArray` | crypto/types/compact_bit_array.go:19-27 | that many unset bits, nil for none |
| `CompactBits.Size` | crypto/types/compact_bit_array.go:30-38 | the number of bits of a well-formed array; negative exactly for extra bits without any byte |
| `CompactBits.GetIndex` | crypto/types/compact_bit_array.go:42-51 | the bit, false from the size on; it panics exactly if the index is below the size and outside the bytes, which in a well-formed array is a negative index |
| `CompactBits.SetIndex` | crypto/types/compact_bit_array.go:55-71 | changes exactly the addressed bit of all that are stored, nothing from the size on; it panics exactly where GetIndex does |
| `CompactBits.CompactMarshal` | crypto/types/compact_bit_array.go:206-220 | the number of bits as a varint and the bytes, or null for no bits |
| `CompactBits.RoundTrip` | crypto/types/compact_bit_array.go:206-241 | every array with bits is restored from its encoding, which is never the one for no bits |
| `CompactBits.NoBitsRoundTrip` | crypto/types/compact_bit_array.go:206-241 | an array without bits is restored as nil |
| `CompactBits.EveryInput` | crypto/types/compact_bit_array.go:224-241 | exactly which inputs crash: at least two bytes, not null, and a varint that ends behind ten bytes or in a tenth byte above 1; and exactly which are accepted |
| `CompactBits.CrashingInput` | crypto/types/compact_bit_array.go:224-241 | ten concrete bytes that crash the decoder |
| `CompactBits.AcceptedArrays` | crypto/types/compact_bit_array.go:224-241 | an accepted encoding is a well-formed array of the stated number of bits, except exactly when adding 7 to that number comes within 7 of 2^64 or wraps around, where an input without bytes is accepted |
| `CompactBits.AcceptedWithoutBits` | crypto/types/compact_bit_array.go:224-241 | ten concrete bytes that are accepted as an array of -1 bits |

## Left out

- Nil keys and nil values, which the stores refuse with a panic, are not values of the model.
- Mutexes of the cache-wrap and of the iterator, and more than one goroutine using one object, are not modelled; the iterator protocol has one consumer, which makes one call at a time.
- Closing of store iterators, Domain and Error, and tracing, have no effect on contents.
- The extra wrap that a multi-store keeps around its own database is not modelled; nothing reads it.
- The IAVL tree, its hashes and proofs, and the underlying databases are taken as versioned maps and ordered range listings.
- Commit is modelled at its boundaries, not at crash points inside it; hashes of commit infos are left out.
- Store upgrades, lazy loading, memory stores and the inter-block cache are left out.
- Consensus parameters are read and written through functions given to the model; gas charged for reading them is left out.
- The check of InitChain's validators against the request is part of the init chainer's outcome.
- An ante handler cannot replace the block gas meter or the multi-store, except that the source takes the original multi-store back anyway.
- Gas meters are values: a handler returns the meter it leaves, rather than sharing it.
- Events, logs, result data, queries, halting at a height, and peer filters are left out.
- Iavl.IavlStore.LoadVersion: the lazy variant of loading is not modelled, because it differs only in what is read when.
- RootMulti.RootStore.LoadLatestVersion: loads the latest version only; loading an older one would add no new property.
- Powers.Power: for numbers that are not whole and not between zero and one says nothing from the third power on, because each step rounds there.
- Powers.RelativePow: for numbers above the scale that are no multiples of it says nothing from the third power on, because each step rounds there.
- Decimal: ApproxRoot and ApproxSqrt are left out, because the Newton loop has no evident decreasing measure; the one-line operations on decimals are left out as easy.
- DecimalText.String: nil decimals are left out.
- Coins.IsValid: lower case means no ASCII capital letter; other scripts are not modelled.
- Coins: NewCoins, parsing, sorting, IsEqual, IsAnyGT and IsAnyGTE would add easy members.
- DecCoins: the products and quotients of whole sets repeat the loop of TruncateDecimal.
- Messages.UnmarshalGasInfo: the kinds of errors are not told apart.
- Messages.UnmarshalValAddresses: the kinds of errors are not told apart.
- Wire.SkipTypes: the kinds of errors are not told apart.
- Varints.ReadVarint: the bitwise or with shifted bits is written as a sum, since the bits are disjoint.
- Messages: the other generated messages follow the same pattern.
- CompactBits: sizes that do not fit an int are not modelled; JSON, printing, copying and counting of bits are left out as easy.
- Routers, module management, clients, servers, keys and simulation are left out.
