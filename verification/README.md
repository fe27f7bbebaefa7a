# A verified model of elliptics-go

elliptics-go binds the elliptics key-value storage to Go. Most of it passes calls through cgo; this project models the
parts in which the binding itself has to get something right, and proves what they guarantee:

- **Chunked write and streaming read.** `WriteChunk` cuts a large write into one prepare, plain writes and a commit,
  each issued from the completion callback of the one before, all sharing one buffer. `StreamHTTP` copies an object to
  an HTTP response in bounded reads. `ChunkedWrite.dfy` holds the writer as a step function together with the native
  library and a store, `ChunkWriter.dfy` the closures as an object over an array and the pool, `Streaming.dfy` the
  loop, `Store.dfy` an object as a byte string, and `RoundTrip.dfy` the composition.
- **The callback pool.** Every operation allocates contexts, stores closures in a global pool, is called back through
  it from C and deletes its contexts. `Pool.dfy` is the pool, `Protocol.dfy` any number of interleaved operations, one
  atomic action at a time, `Operation.dfy` the same actions as methods on shared objects, `Interleaving.dfy` chunked
  writes with their own closures among all the others.
- **Ring shares.** `Finalize` computes from the route IDs how much of the ID ring each backend covers. `Ring.dfy` is
  the ring point by point, `Stat.dfy` the computation, `Routes.dfy` the table of groups and backends that routes and
  statistics fill, `Snapshot.dfy` the joining of two snapshots, `SnapshotChain.dfy` of any number of them, `Readings.dfy`
  the way from monitoring replies to readings and rates, `Pid.dfy` the controller.
- **Key lookup by ID.** `Keys.dfy` is the binary search behind bulk operations.

`Machine.dfy`, `Bytes.dfy` and `Sorting.dfy` hold 64-bit arithmetic, byte order and sorting.

Integers of the source are 64-bit and wrap; the model says so explicitly (`Wrap`, `Add64`, `Sub64`) and the theorems
either hold with wrap-around or state the bound they need. Floating-point values are reals; quotients by zero are
infinite or undefined values of their own (`Float`).

The native library appears only through what it may do: it delivers results and then one final event per request, one
at a time (the `.connect(on_x, on_finish)` pairs); a completed write has put the bytes in the buffer at the requested
offset, a failed one may have left anything; a read answers with nonempty pieces of the requested range or with errors,
in any mixture. `input.Read` may fill the buffer in any way, deliver any number of bytes up to the buffer's size, and
fail at any time; `NewKey` may fail at any time.

## What the code does not guarantee

Each of these is a property one would expect, with an input or run for which it fails and the exact condition under which
it holds.

- `write` and `cache` store a value of the defined type `onLookupCallback` (elliptics/session.go:478, 642), while the
  dispatcher asserts `func(*lookupResult)` (elliptics/callback.go:62). `Protocol.WritePanics` is a run that panics; a run
  panics if and only if a result is delivered to one of these two (`Protocol.PanicsIff`).
- `NewKeys` sorts by name but `find` searches by ID, and hands its answer back as a C string. `Keys.StringOrderIsNotEnough`
  is an input for which "a" is answered for the ID of "b", and `Keys.ZeroByteIsCut` one for which a name is cut at its zero
  byte. Every stored ID is answered with its own name if and only if no name is empty or has a zero byte and IDs strictly
  ascend from one name to the next (`Keys.AnswersEachIff`, `Keys.NewKeysAnswersIff`); that is also exactly when every
  bulk read shows every reply under the right name (`Protocol.BulkReadLabelsIff`). An ID that is not stored is answered
  with the next greater key's name.
- Bulk read and bulk remove transform their keys before the request (elliptics/session.cpp:316-318, 330-332); bulk write
  never does, so all its keys keep one blank ID, and a successful write of "a" shows nothing (`Protocol.BulkWriteHides`).
  Replies are all shown if and only if each is a failure or has an ID not greater than the blank one while a first name
  exists (`Protocol.BulkWriteShowsAllIff`), all shown and rightly named if and only if moreover each success was written
  under that first name (`Protocol.BulkWriteLabelsIff`), and no success is shown if and only if every ID written is greater
  than the blank one or there is no first name (`Protocol.BulkWriteIsMute`).
- `WriteChunk` never uses its clamp `rest`, so a reader that delivers more than `total_size` makes the remaining size
  wrap (`ChunkedWrite.Overruns`). Fed with nonempty pieces of fewer than 2^64 bytes in all, a run can succeed if and only
  if they add up to exactly `total_size` (`ChunkedWrite.SucceedsIff`).
- `WriteChunk` need not commit: whenever one read covers everything, there is a successful run without a commit
  (`ChunkedWrite.Uncommitted`). A successful run commits if and only if the first read did not already cover everything
  (`ChunkedWrite.SuccessfulRun`); `WriteData` hands over only writes that no single read can cover
  (`RoundTrip.DispatchedWritesCommit`).
- An empty first read puts an error into the response channel and goes on: `ChunkedWrite.StrayError` is a run that stores
  the whole input and shows that error alone. The error appears if and only if the first read is empty and reports none
  itself (`ChunkedWrite.ConsumerSees`).
- Errors of replicas reach the consumer among the last request's lookups only (`ChunkedWrite.HiddenReplicaError` is a run
  with an earlier one that shows nothing); a consumer sees no error at all if and only
  if the first read delivered something, everything landed and no replica failed on the last request
  (`ChunkedWrite.NoErrorIff`).
- `WriteChunk` need not end, even if every native write succeeds. A reader that returns nothing and no error makes it issue
  empty writes for ever (`ChunkedWrite.EmptyReadsForever`), and so may an overrunning one (`ChunkedWrite.OverrunForever`).
  It never closes the channel if and only if the bytes delivered never add up to `total_size` modulo 2^64 and no read fails
  empty-handed (`ChunkedWrite.NeverClosesIff`); for a reader that never delivers more than is left, if and only if from
  some read on every read is empty without an error (`ChunkedWrite.NeverClosesIffDry`).
- `Finalize` adds to sums without resetting them: a second one leaves a backend that holds the whole ring one point short
  (`Routes.SecondFinalize`). A sum comes out as its backend's share if and only if it went in as 0 (`Routes.FreshCredit`,
  `Routes.FinalizedTwice`).
- Shares depend on map iteration order (`Ring.ContestedDiffers`) exactly when two backends share an 8-byte ID prefix,
  unless that prefix is the topmost one and prefix 0 is taken too (`Ring.OrderIndependenceIff`).
- `StreamHTTP` need not return: against `Streaming.Idle`, which answers every read with an empty item, it is still running
  after any number of reads (`Streaming.IdleForever`). With replies that are truthful but may be empty it never returns if
  and only if from some read on the same range is answered with an empty item every time (`Streaming.NeverReturnsIff`),
  and it announces Content-Length more than once if and only if the first read is answered with an empty item although
  something is left and the second with a data item (`Streaming.AnnouncedTwiceIff`).
- Rates stored by `Diff` do not survive a restarted server (`SnapshotChain.CounterReset`): over a chain of snapshots they
  account for a counter's growth if and only if the counter never went down (`SnapshotChain.RatesTelescopeIff`).
- A stored request rate is growth per elapsed time, measured since the latest snapshot that has the command, if and only if
  that is the snapshot immediately before or nothing grew (`SnapshotChain.RateSinceIff`). Otherwise either the group was
  carried over and the divisor covers the last interval only (`SnapshotChain.CarriedRate`), or the backend was there by its
  routes alone because its server had not answered, and the growth is lost (`SnapshotChain.SilentServer`).
- Disk rates measure growth since the snapshot immediately before if and only if the counters did not go down and, for
  bytes, 512 times the growth fits 64 bits (`SnapshotChain.DiskRatesIff`). After a snapshot of routes alone they do not
  (`SnapshotChain.SilentDisk`), nor across a carried-over one unless nothing grew (`SnapshotChain.CarriedDiskRatesIff`).
- The controller's pain need not be a number: two updates in the same instant leave none (`Pid.SameInstant`). It is a number
  if and only if every update in the same instant as another, with an error that had not fallen, was followed by one with a
  positive force (`Pid.PainIsNumberIff`).
- Contexts come from a counter that wraps at 2^64. With more than 2^64 operations under way two hold the same context
  (`Protocol.CrowdCollides`); an allocation keeps contexts apart if and only if the new one is not held by an unfinished
  operation (`Protocol.AllocateKeepsIff`).

## Model

| member | source | states |
|---|---|---|
| `ChunkedWrite.SingleFlight` | elliptics/session.go:507-575 | in every reachable state at most one native write is outstanding, the shared buffer still holds the bytes it was submitted with, and every completed write carried the bytes it was submitted with |
| `ChunkedWrite.ClosesOnce` | elliptics/session.go:513-575 | no run sends on or closes a closed channel; the channel is closed exactly when nothing is outstanding and the pool contexts are gone, and no event can follow |
| `ChunkedWrite.RequestShape` | elliptics/session.go:549-574 | exactly the first request is a prepare and reserves the whole size, every request starts where the one before ended, and a commit comes last, names the end offset and needs every byte read |
| `ChunkedWrite.SuccessfulRun` | elliptics/session.go:501-621 | a run in which the writer reports no error submitted `total` bytes modulo 2^64, left the store as after one single write of them and forwarded exactly the last request's lookups; the last request is a commit iff the first read was not everything |
| `ChunkedWrite.StoredIsDelivered` | elliptics/session.go:539-551 | the bytes a successful run stored are those the reader delivered, first read included, in order |
| `ChunkedWrite.ConsumerSees` | elliptics/session.go:513-547 | every closed run, failures included, shows the stray error iff the first read was empty, then exactly the last request's lookups if that request left nothing to submit and none otherwise, then, iff some request did not land or something was left, one error: the last event's native error, else the reader's if it read nothing, else that there was no key; the errors a consumer counts are these and those of replicas among the lookups |
| `ChunkedWrite.NoErrorIff` | elliptics/callback.go:36-53 | a consumer sees no error at all iff the first read delivered something, everything landed and no replica failed on the last request |
| `ChunkedWrite.HiddenReplicaError` | elliptics/session.go:513-517 | for any replica's error on the first of two requests, a run that shows nothing |
| `ChunkedWrite.OverrunNeedsWrap` | elliptics/session.go:577-602 | a successful run stored exactly `total` bytes or at least 2^64 more |
| `ChunkedWrite.SucceedsIff` | elliptics/session.go:539-602 | for nonempty later reads, with or without an error beside the bytes, of fewer than 2^64 bytes in all, a run that makes exactly these can succeed iff they add up to `total` |
| `ChunkedWrite.Overruns` | elliptics/session.go:577-602 | two bytes delivered for a write of one leave 2^64 - 1 to go, which nothing short of as many bytes can mend |
| `ChunkedWrite.Uncommitted` | elliptics/session.go:531-537 | whenever one read covers everything, a successful run whose requests include no commit |
| `ChunkedWrite.StrayError` | elliptics/session.go:589-598 | after an empty first read, a run that stores the whole input and shows only an error |
| `ChunkedWrite.AnyChunkingSucceeds` | elliptics/session.go:501-621 | for every way of cutting an input of `total` bytes into nonempty reads, later ones with or without an error beside the bytes, there is a run that succeeds and stores exactly that input |
| `ChunkedWrite.NeverClosesIff` | elliptics/session.go:521-575 | with every native write succeeding, the channel is never closed iff the bytes delivered never add up to `total` modulo 2^64 and no read fails empty-handed |
| `ChunkedWrite.NeverClosesIffDry` | elliptics/session.go:539-551 | for a reader that never delivers more than is left, it is never closed iff from some read on every read is empty without an error |
| `ChunkedWrite.EmptyReadsForever` | elliptics/session.go:539-574 | a reader under which one more request follows every completion, for ever |
| `ChunkedWrite.OverrunForever` | elliptics/session.go:577-602 | an overrunning reader under which the channel is never closed |
| `ChunkedWrite.RequestsBounded` | elliptics/session.go:539-574 | if no read is empty, any run issues at most as many requests as bytes were read |
| `ChunkedWrite.RunKeeps` | elliptics/session.go:513-575 | the invariant holds after every sequence of native events |
| `ChunkedWrite.AppliedIsOneWrite` | elliptics/session.go:564-574 | requests that adjoin amount to one write of their joined bytes |
| `ChunkedWrite.FirstReadDecides` | elliptics/session.go:531-537 | the last of a complete list of requests is a commit iff the first read was not everything |
| `ChunkWriterObject.ChunkWriter.constructor` | elliptics/session.go:502-511 | allocates three distinct contexts from the shared counter and sets the captured variables up before the first read |
| `ChunkWriterObject.ChunkWriter.WriteChunk` | elliptics/session.go:577-621 | the first read, in place, refines the step function; once a request is issued, each of its three contexts dispatches to this operation with the type asserted there; no other pool entry changes |
| `ChunkWriterObject.ChunkWriter.OnChunkResult` | elliptics/session.go:513-517 | refines the step function: a lookup is forwarded only when nothing is left to submit |
| `ChunkWriterObject.ChunkWriter.OnChunkFinish` | elliptics/session.go:521-575 | refines the step function, every exit included; no other operation's pool entry changes |
| `Streaming.StreamHTTP` | elliptics/session.go:229-291 | without a key nothing is sent; otherwise the loop, for any native replies whatever under which it returns, returns what its turns lead to |
| `Streaming.EndsAtLastRead` | elliptics/session.go:246-278 | whatever the native side replies, a failed stream ends with a read right behind what was sent that brings errors alone, and its code is the last one's or -6 if nothing came; a successful one ends with the first data item of its last read |
| `Streaming.FaithfulEnds` | elliptics/session.go:240-288 | with honest replies the loop returns, with the result `Serve` that the theorems below are about |
| `Streaming.FirstUsable` | elliptics/session.go:246-274 | the loop over one channel computes `Pick` |
| `Streaming.PickFirst` | elliptics/session.go:252-256 | the first data item wins after any number of errors; otherwise the last error's code, or -6 for an empty channel |
| `Streaming.ChunkSize` | elliptics/session.go:241-244 | one read never asks for more than a chunk nor, once the size is known, for more than is left |
| `Streaming.HonestRound` | elliptics/session.go:258-273 | with honest replies no subtraction wraps, and either all is sent or the loop has moved on inside the object |
| `Streaming.StreamResult` | elliptics/session.go:236-290 | on success the body is exactly the requested range (everything from the offset for size 0) and the one Content-Length is its length; on failure the body is a proper prefix and the length was announced iff data arrived |
| `Streaming.ServeSucceeds` | elliptics/session.go:252-288 | if every read that starts inside the object yields data after any number of errors, the stream succeeds |
| `Streaming.NeverReturnsIff` | elliptics/session.go:240-288 | with truthful replies that may be empty, the loop never returns iff from some read on the same range is answered with an empty item every time |
| `Streaming.IdleForever` | elliptics/session.go:240-288 | replies under which the loop is still running after any number of reads, announcing the length with each |
| `Streaming.AnnouncedTwiceIff` | elliptics/session.go:258-265 | Content-Length is announced more than once iff the first item is empty although something is left and the second read yields data |
| `RoundTrip.WriteThenStream` | elliptics/session.go:501-621 | for any offset, earlier content and pattern of short reads, streaming the written range after a successful chunked write yields exactly the delivered bytes with their number as Content-Length |
| `RoundTrip.WriteThenStreamAll` | elliptics/session.go:229-291 | the same for a write at offset 0 followed by a request with offset 0 and size 0 |
| `RoundTrip.DispatchedWritesCommit` | elliptics/session.go:488-491 | a successful write that `WriteData` hands to `WriteChunk` has at least two requests, a prepare first and a commit last |
| `Pool.ContextPool.NextContext` | elliptics/pool.go:21-23 | increments the shared counter, wrapping at 2^64, and returns it |
| `Pool.ContextPool.Store` | elliptics/pool.go:25-30 | sets one entry and keeps the others |
| `Pool.ContextPool.Get` | elliptics/pool.go:32-40 | the entry, or the missing-key error |
| `Pool.ContextPool.Delete` | elliptics/pool.go:42-46 | removes one entry and keeps the others |
| `Pool.ContextPool.Find` | elliptics/callback.go:57-62 | lookup followed by the type assertion, with both panics |
| `Protocol.RunSafe` | elliptics/pool.go:21-46 | over every interleaving with fewer than 2^64 allocations the pool and the operations stay in exact correspondence |
| `Protocol.PoolIsUnion` | elliptics/session.go:294-321 | the pool's keys are exactly the contexts of unfinished operations, each stored with its own operation's closure and type, none held twice |
| `Protocol.QuiescentIsEmpty` | elliptics/session.go:304-312 | when every operation is over the pool is empty |
| `Protocol.NoInterference` | elliptics/pool.go:42-46 | no action of one operation changes another's pool entries |
| `Protocol.PanicsIff` | elliptics/callback.go:14-149 | a run panics iff its last action delivers a result to a write or cache operation |
| `Protocol.DispatchesHome` | elliptics/callback.go:89-95 | an event's lookup finds its own operation's closure with the asserted type, except results of write and cache |
| `Protocol.AllocateKeepsIff` | elliptics/pool.go:21-23 | a new context keeps the correspondence iff no unfinished operation holds it |
| `Protocol.HistoryAccounts` | elliptics/callback.go:14-33 | in every reachable state an operation's kind, keys, entries and final code are exactly those of its own actions |
| `Protocol.ConsumerView` | elliptics/session.go:299-312 | in terms of an operation's own actions: its channel holds what the delivered entries show, in order, then an error iff the final event's code is negative, with that code, and is closed iff the final event came; plain kinds show everything, silent kinds nothing, bulk kinds a subsequence, `BulkRemove` as many reports as failures |
| `Protocol.EveryHistoryHappens` | elliptics/session.go:294-321 | for every kind that receives results, all keys, entries and codes there is a run that delivers exactly these, ends with this code and leaves the pool empty |
| `Protocol.AbandonHappens` | elliptics/session.go:583-588 | a run that fails before anything is stored shows that code alone |
| `Protocol.RoutesHappen` | elliptics/route.go:82-91 | fetching routes ends with an empty pool |
| `Protocol.BulkRemoveShowsFailures` | elliptics/session.go:993-1011 | every report of `BulkRemove` is about a failure, one per failed key |
| `Protocol.BulkRemoveLabels` | elliptics/session.go:993-1011 | if every lookup is right, the reports are each failure unnamed and each bad status under the name that was to be removed, in order |
| `Protocol.BulkRemoveUnknown` | elliptics/session.go:997-1004 | a bad status for an ID above all stored ones is reported as an unknown key |
| `Protocol.BulkReadSkips` | elliptics/session.go:337-341 | a reply to an ID above all stored ones is passed over by bulk read |
| `Protocol.BulkReadRun` | elliptics/session.go:323-355 | in every reachable state of every interleaving, a bulk read's channel holds each delivered entry in order under the name it was asked for, then its final event's error if the code is negative, if no name is empty or has a zero byte and the transform keeps the order of names |
| `Protocol.BulkReadLabelsIff` | elliptics/session.go:337-344 | whatever replies come to requested keys, all are shown and rightly named iff every key's lookup is right |
| `Protocol.BulkWriteShowsAllIff` | elliptics/session.go:934-946 | since bulk write leaves its keys untransformed, it shows every reply iff each failed or has an ID not above the blank one while a first name exists |
| `Protocol.BulkWriteLabelsIff` | elliptics/session.go:934-946 | every reply is shown and every success rightly named iff each success is visible and was written under the first name |
| `Protocol.BulkWriteIsMute` | elliptics/session.go:934-946 | its channel shows failures alone iff every ID written is above the blank one or there is no first name |
| `Protocol.BulkWriteShowsSome` | elliptics/session.go:934-946 | two successful replies of which one is shown |
| `Protocol.BulkWriteHides` | elliptics/session.go:934-946 | a bulk write that succeeds and shows nothing |
| `Protocol.WritePanics` | elliptics/callback.go:55-68 | for `write` and for `cache`, a run whose first result panics |
| `Protocol.CrowdCollides` | elliptics/pool.go:21-23 | a run in which, after more than 2^64 allocations, two operations hold the same context |
| `Interleaving.WritesAreHistories` | elliptics/session.go:501-621 | over every interleaving a chunked write past its set-up is a history of its own closures that got exactly the entries the protocol delivered and forwarded exactly those it showed, with a native write outstanding exactly while in flight and its channel closed exactly when the operation is |
| `Interleaving.InterleavedConsumerSees` | elliptics/session.go:513-547 | what the consumer of a closed chunked write receives is as if it ran alone, the lookups shown are the last entries the protocol delivered to it, and a negative final code is the error it ends with |
| `Protocol.BulkNamesAreRight` | elliptics/key.cpp:85-100 | with keys in strict ID order a result of bulk read or remove carries the name it was requested under up to its first zero byte, so the very name iff it has none |
| `Operations.Operation.Allocate` | elliptics/session.go:296-297 | performs exactly the allocation step on the shared pool |
| `Operations.Operation.Store` | elliptics/session.go:314-315 | performs exactly the next store step |
| `Operations.Operation.SubmitRequest` | elliptics/session.go:317-319 | performs exactly the submission step |
| `Operations.Operation.OnResultEvent` | elliptics/callback.go:89-111 | a result dispatched through the pool performs exactly the delivery step |
| `Operations.Operation.OnFinalEvent` | elliptics/callback.go:14-33 | a final event dispatched through the pool performs exactly the completion step |
| `Operations.Operation.Delete` | elliptics/session.go:310-311 | performs exactly the next deletion step |
| `Keys.Search` | elliptics/key.h:31-38 | the loop of `std::lower_bound` computes `LowerBound` |
| `Keys.EllKeys.Insert` | elliptics/key.h:27-30 | appends one key |
| `Keys.NewKeys` | elliptics/key.go:85-106 | sorts the caller's names in place, as strings, and makes one key for each, all still with the blank ID |
| `Keys.EllKeys.TransformAll` | elliptics/session.cpp:330-332 | gives every key the ID that the session's transform makes of its name |
| `Keys.FindInOrder` | elliptics/key.h:31-45 | in ID order `find` agrees with linear search for stored IDs, points at the next greater key for others, and finds nothing iff all IDs are smaller or the name there is empty |
| `Keys.AnswersEachIff` | elliptics/key.cpp:85-100 | with equal names side by side, every stored ID is answered with its own name iff no name is empty or has a zero byte and IDs strictly ascend from one name to the next |
| `Keys.NewKeysAnswersIff` | elliptics/key.go:93-98 | after `NewKeys` and the transform every stored ID is answered with its name iff no name is empty or has a zero byte and the transform keeps the order of different names |
| `Keys.UntransformedFind` | elliptics/key.h:31-45 | among keys that all have the blank ID, a lookup answers the first name, up to its first zero byte, or none for a greater ID |
| `Keys.CutKeepsIff` | elliptics/key.cpp:92-96 | handing a name back as a C string keeps it iff it has no zero byte |
| `Keys.ZeroByteIsCut` | elliptics/key.cpp:92-96 | a key whose name is answered only up to its zero byte |
| `Keys.StringOrderIsNotEnough` | elliptics/key.go:93-98 | two names and IDs for which the wrong name is answered |
| `Bytes.PrefixMonotone` | elliptics/stat.go:362-369 | the 8-byte prefix is monotone in byte order, and prefixes are equal iff the first eight bytes are |
| `Sorting.SortedIsUnique` | elliptics/stat.go:378-378 | there is one sorted rearrangement, so the sorting algorithm does not matter |
| `Ring.SharesCoverRing` | elliptics/stat.go:378-400 | conservation: the shares of any complete list of owners add up to MaxUint64, or 0 for an empty ring |
| `Ring.OrderIndependenceIff` | elliptics/stat.go:358-376 | shares are independent of map iteration order iff no position that holds points is claimed twice |
| `Ring.PopulatedIff` | elliptics/stat.go:380-400 | a claimed position holds points unless it is MaxUint64 and 0 is claimed too |
| `Ring.OwnersClaim` | elliptics/stat.go:370-374 | a position is owned iff some backend claims it, and its owner claims it |
| `Ring.GoingFirstPays` | elliptics/stat.go:370-374 | of two backends with a common prefix, the one visited first has strictly more than if visited second |
| `Stat.NewAddressBackend` | elliptics/stat.go:423-439 | a key exists iff the address fits 32 bytes |
| `Stat.AddressBackendFaithful` | elliptics/stat.go:74-79 | `DnetAddr` undoes the encoding, and keys are equal iff address, family and backend are |
| `Stat.StatBackend.PidUpdate` | elliptics/stat.go:220-244 | refines `Pid.Update` and changes nothing else |
| `Stat.SortedPrefixes` | elliptics/stat.go:359-369 | sorting a backend's IDs keeps the claimed positions and lists them in ring order |
| `Stat.TakePositions` | elliptics/stat.go:361-375 | a backend takes exactly the positions nobody took before |
| `Stat.Collect` | elliptics/stat.go:355-376 | the collecting loop yields the owners that some visiting order determines |
| `Stat.AddDifferences` | elliptics/stat.go:380-400 | the adding loop credits every backend with exactly the number of ring points it owns, modulo 2^64; in every one of its additions the difference does not wrap and, from fresh sums, neither does the addition |
| `Stat.SetPercentages` | elliptics/stat.go:402-404 | every percentage is its sum over MaxUint64 |
| `Stat.Finalize` | elliptics/stat.go:354-405 | each sum grows by the number of points in [0, MaxUint64) whose holder (greatest prefix at or below, wrapping to the largest) belongs to the backend |
| `Routes.FreshCredit` | elliptics/stat.go:392-399 | a sum comes out as the share iff it went in as 0 |
| `Routes.FinalizedTwice` | elliptics/stat.go:392-399 | finalized twice, a fresh sum is the latest share iff the first one was 0 |
| `Routes.SecondFinalize` | elliptics/stat.go:392-399 | a backend with the whole ring comes out of a second `Finalize` one point short |
| `Routes.DnetStat.FindBackend` | elliptics/stat.go:564-581 | the one object for a key, created empty on first use; no object ever stands under two keys |
| `Routes.DnetStat.AddRouteEntry` | elliptics/route.go:56-64 | one more ID under the entry's key and nothing else |
| `Routes.DnetStat.AddRouteEntries` | elliptics/route.cpp:25-32 | all entries in turn |
| `Routes.TableIsFilter` | elliptics/route.go:56-64 | the table refines the plain list of entries: a key is present iff an entry names it, with those entries' IDs in order |
| `Routes.DnetStat.Finalize` | elliptics/stat.go:663-667 | every group is finalized, none influences another |
| `Routes.DnetStat.GetRoutes` | elliptics/route.go:82-91 | routes added, then every group finalized |
| `Routes.DnetStat.ApplyVNode` | elliptics/stat.go:606-658 | applies one backend of a reply to the table of notes, whose meaning `Readings` states, and leaves IDs, sums and percentages alone |
| `Routes.DnetStat.AddStatEntry` | elliptics/stat.go:583-661 | takes over the reply's time, even where monitoring does not work, and applies its backends in turn; no ID list, sum or percentage changes and new backends start with none |
| `Readings.LastReportDecides` | elliptics/stat.go:606-658 | over any replies a backend's error code is that of the last report naming it, its measurements, field by field, those of the last one without an error code, and a command's counters those of the last of these that names it |
| `Readings.OthersHaveNoSay` | elliptics/stat.go:599-615 | a backend is known iff it was or some report names it; unnamed it stays as it was, and reports with an error code change the code alone |
| `Readings.MuteReplies` | elliptics/stat.go:599-609 | servers without monitoring and disabled backends change nothing |
| `Readings.UnreportedIsBlank` | elliptics/stat.go:202-210 | a backend that only routes have named has zero readings, no commands and no pain |
| `Readings.TwoSnapshots` | elliptics/stat.go:468-562 | from the replies of two rounds to the rates: for every backend and command reported in both, the rates stored by `Diff` are 512 times the growth of the reported sectors, and the growth of the reported counters, per second between the two, exactly where counters did not go down and no product overflows |
| `Routes.RoutedTotals` | elliptics/stat.go:499-510 | ring shares survive statistics: sums of a group total MaxUint64 if a route names it, else 0 |
| `Routes.PercentsFollowSums` | elliptics/stat.go:402-404 | percentages total the sums' total over MaxUint64 |
| `Routes.CollectStat` | elliptics/stat.go:468-511 | after routes and any statistics replies every sum is its backend's ring share under the order its group was visited in, every routed group's sums total MaxUint64 and its percentages 1, other groups' 0, every key holds exactly its announced IDs, sorted, the time is the last reply's, and no backend has rates or a used controller yet |
| `Routes.EntriesUnjoined` | elliptics/stat.go:583-661 | statistics replies leave every command with a zero rate and every controller new |
| `Snapshot.DiffBackend` | elliptics/stat.go:534-549 | controller taken over from the earlier snapshot, rates from the wrapped counter differences, undefined or infinite for a zero interval |
| `Snapshot.DiffGroups` | elliptics/stat.go:522-551 | every backend both snapshots know is joined, every other keeps what it had |
| `Snapshot.Diff` | elliptics/stat.go:515-562 | the whole of `Diff`, on snapshots that may share backends: early exits, the join over the time between the two, and the carrying over of unreported groups |
| `Snapshot.CarryKeeps` | elliptics/stat.go:553-561 | carrying over keeps every object under one group and key, so joined snapshots can be joined again |
| `SnapshotChain.JoinAll` | elliptics/stat.go:515-562 | joins a sequence of snapshots; in the end each knows the groups `Chain` says and holds the readings, rates and controllers `Chained` says, untouched by later joins |
| `SnapshotChain.ChainKnows` | elliptics/stat.go:553-561 | over a chain of snapshots a group is known iff some snapshot reported it |
| `SnapshotChain.ChainKeepsLatest` | elliptics/stat.go:553-561 | a group keeps the backend objects of the latest snapshot that reported it |
| `SnapshotChain.CarriedIsUnchanged` | elliptics/stat.go:553-561 | a group keeps the readings, rates and controllers it had when it was last reported and joined |
| `SnapshotChain.ControllerFollows` | elliptics/stat.go:534-534 | a backend has the controller its group's latest earlier report left it with; without an earlier report of the backend it is as collected |
| `SnapshotChain.PainSurvives` | elliptics/stat.go:534-534 | the controller survives any chain of joins, carried over or not |
| `SnapshotChain.StoredRates` | elliptics/stat.go:534-549 | a backend's stored rates measure its counters against the latest earlier report over the last interval |
| `SnapshotChain.RateSinceIff` | elliptics/stat.go:520-548 | the stored rate of any of a command's three counters is its growth per second since the latest snapshot that has the command iff that is the one immediately before or nothing grew |
| `SnapshotChain.SilentServer` | elliptics/stat.go:499-509 | three snapshots, the middle one of routes alone, that store two requests in two seconds as none per second |
| `SnapshotChain.RatePerElapsedIff` | elliptics/stat.go:520-548 | against the latest report of its group, a stored rate is growth per elapsed time iff that report was the snapshot immediately before or nothing grew |
| `SnapshotChain.DiskRatesIff` | elliptics/stat.go:536-538 | bytes written and read and utilization measure growth since the snapshot before iff counters did not go down and, for bytes, 512 times the growth fits 64 bits |
| `SnapshotChain.CarriedDiskRatesIff` | elliptics/stat.go:536-538 | measured against a carried-over report, without wrapping, they measure growth since then iff nothing grew |
| `SnapshotChain.SilentDisk` | elliptics/stat.go:536-538 | a snapshot of routes alone stores a wrapped difference, and the next one the total since the server started |
| `SnapshotChain.CarriedRate` | elliptics/stat.go:520-561 | three snapshots, the middle one without the group, that store two requests in two seconds as two per second |
| `SnapshotChain.RateIsNumberIff` | elliptics/stat.go:520-548 | a stored rate is a number iff time passed since the snapshot before |
| `SnapshotChain.RatesTelescopeIff` | elliptics/stat.go:546-548 | for each of the three counters the sum of stored rate times interval is last minus first iff the counter never went down |
| `SnapshotChain.CounterReset` | elliptics/stat.go:546-548 | two snapshots around a restart whose stored rate is off by 2^64 |
| `Pid.PainOfLast` | elliptics/stat.go:224-242 | after any updates pain is error plus 0.3 times slope where that is positive, else half the pain before plus 1; in the same instant infinite, relaxed or undefined as the error rose, fell or stayed |
| `Pid.IntegralIsSum` | elliptics/stat.go:225-239 | the integral is the sum of errors times seconds |
| `Pid.PainIsPositive` | elliptics/stat.go:220-244 | from the first update on pain, if a number, is positive |
| `Pid.PainIsNumberIff` | elliptics/stat.go:220-244 | pain is a number iff every update in the same instant as another, with an error that had not fallen, was followed by one with a positive force |
| `Pid.SameInstant` | elliptics/stat.go:224-242 | two updates in one instant after which pain is not a number |
| `Pid.IntegralIsIrrelevant` | elliptics/stat.go:146-159 | pain and error do not depend on the integral term |
| `Pid.PainRelaxes` | elliptics/stat.go:229-236 | after k updates without positive force, (pain - 2) * 2^k is the initial pain - 2 |

## Left out

- The native elliptics library (network, storage, hashing): only the event order, an abstract store and an arbitrary transform from names to IDs.
- What reservation and commit size mean to the storage: the model proves which values are passed, and treats prepare, plain and commit alike as writes at an offset.
- C memory management and the lifetime of C structs.
- Field-by-field conversions between C and Go, flags, node setup, logging, the unpacking loop of the backend status list: they would only add easy members.
- JSON decoding of statistics: replies are modelled already parsed, with the request and byte totals of each command given.
- `WriteKey`, `WriteCache`, `Lookup` by string and similar wrappers: each is one operation of the protocol model.
- Channel capacity and blocking of a callback on a full channel: channels are unbounded.
- IEEE rounding: floating-point values are reals.
- Streaming.StreamHTTP: says nothing about a loop that never returns, which `Streaming.NeverReturnsIff` characterises; write errors of the HTTP connection, which the source ignores, are not modelled.
- Stat.Finalize: requires IDs of at least eight bytes, as every route's 64-byte ID is, and distinct objects under distinct keys, which `Routes.DnetStat.FindBackend` maintains.
- Routes.DnetStat.FindBackend: requires an address of at most 32 bytes, because for a longer one the source terminates the process and there is no state afterwards.
- Snapshot.Diff: requires an object that both snapshots hold to stand under one group and key, which collecting and joining maintain (`Snapshot.CarryKeeps`).
- Groups are values of the table rather than objects of their own: after `Diff` the two snapshots share backend objects, as in the source, but a backend added later to a carried-over group is not seen by the earlier snapshot.
- Protocol.ConsumerView: excludes chunked writes, whose decisions to forward a lookup or issue another write are arbitrary in the protocol model; `Interleaving.InterleavedConsumerSees` covers them.
- Write and cache operations delete their contexts before they report; the protocol model reports first, which no statement about the pool can tell apart.
