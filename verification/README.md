# statute, verified

statute is a reverse proxy written in Go. This project models the parts of it where
resources are shared and where things happen at the same time, and proves what those
parts promise. Configuration, TLS and the HTTP library are not part of it.

How the files fit together:

| part | files | what it is about |
|---|---|---|
| response cache | `ResponseBuffers`, `CacheRepresentation`, `CacheState`, `CacheStore`, `CacheRuns`, `CacheFreshness`, `CacheWriter` | an intrusive list of entries, leases that outlive eviction, one byte budget, Vary variants, age arithmetic, and a writer that may turn from capturing to streaming |
| rate limiter | `TokenBuckets`, `UnboundedBuckets`, `BucketHistory`, `BucketHeap`, `BucketStore` | a bounded table of token buckets with an indexed heap, the unbounded table it cannot be told apart from, and accounts kept from the answers alone |
| retry leases | `LeaseLedger`, `RetryTransport`, `RetryRuns`, `RetryBodies`, `Sources`, `RetryBuffers` | reference-counted request buffers, transport bodies that read, close and are cleaned up in any order |
| request buffering | `RequestBuffers` | bodies read into memory and spilled to disk under server-wide budgets |
| timeouts | `Timeouts`, `TimeoutRuns`, `TimeoutOutcomes` | producer, caller and deadline around one bounded buffer, and what each request comes to |
| control loops | `DockerReconcile`, `AcmeOrders` | reconcile wakeups and publication; single-flight certificate orders |
| selection | `WeightedRoundRobin`, `PassiveHealth`, `RouteOrder`, `RouteDispatch`, `PathStripping`, `MiddlewareOrder` | backends, failure windows, route precedence, path prefixes, middleware validation |
| shared | `Basics`, `Ledger` | options and distinct sequences; sums over finite maps |

The concurrent parts come in two layers. A value layer has one function per critical
section or atomic operation, an invariant, and theorems over every run of every
interleaving. Beside it, classes hold the fields the Go code updates in place, and each
method that is one such section is proved to move the class's abstract value by the
corresponding function. Where a method spans several sections (`RequestBuffers.Serve`,
`AcmeOrders.Issuer.SettleWon`), others act in between. What the functions compute is
stated again without them, from the steps of a run: reads begun and ended, leases taken and
given back, tokens paid, writes that fitted, mutations since a capture, certificates brought.

Every public method of a class requires and ensures its `Valid`, so `Valid` is what every
sequence of calls keeps. For the cache it says: the heap links form a doubly linked list of
exactly the retained entries; each entry's references are its leases plus one if retained;
the entry count is the number of live entries and within the limit; and the budget holds
exactly scratch space for open requests, entry charges and body capacities, within its
limit. For the bucket store: table and heap hold the same buckets, every index is a heap
position, heap order holds, and the size is within the limit. For the request buffers:
memory, disk and active are the sums over live buffers and within their budgets.

Conventions: times are integer nanoseconds, `float64` tokens are reals, header maps map
folded names to value sequences, digests are collision-free, and answers that come from
outside (readers, disks, cancellation, matchers, address parsing) are parameters.

One promise turns out to need a condition, and there is a theorem that it holds if and only
if the condition does. A passive failure reads the clock before it takes the lock, so one
can be recorded after another that read the clock later. The kept window then errs in both
directions: an expired failure hidden behind a fresh one keeps a backend demoted, and a
fresh failure dropped to make room for an older one lets a demotion be missed
(`OvertakenFailure`). As soon as one failure has been overtaken, some window length,
threshold and later look show the first error and others show the second
(`WronglyDemoted`, `WronglySpared`); while none has been, every answer is that of the full
history (`DemotedIffHistory`). Together: `ExactIffInOrder`.

## Model

| member | source | states |
|---|---|---|
| `ResponseBuffers.Budget.Reserve` | responsebuffer_limit.go:60-71 | bytes are admitted exactly when they still fit; a refusal changes nothing |
| `ResponseBuffers.Budget.Release` | responsebuffer_limit.go:73-79 | the charge goes down by what is returned |
| `ResponseBuffers.NextCapacity` | responsebuffer_limit.go:125-127 | the next allocation holds what is needed, at least doubles from 512 bytes, and never passes the body limit |
| `ResponseBuffers.ResponseBuffer.PrepareBodyWrite` | responsebuffer_limit.go:112-141 | admitted iff within the body limit and the budget has room for both allocations; the charge moves by exactly the change in capacity; which status a refusal records |
| `ResponseBuffers.ResponseBuffer.Write` | responsebuffer.go:50-58 | all of the bytes are appended or none, with the budget exact either way |
| `ResponseBuffers.ResponseBuffer.WriteHeader` | responsebuffer.go:35-47 | the first final status wins; informational codes, and 101 on a multiplexed connection, are not recorded |
| `ResponseBuffers.ResponseBuffer.Release` | responsebuffer_limit.go:149-153 | the whole allocation is returned, a second release returns nothing |
| `CacheRepresentation.MatchesIsSnapshot` | cache_representation.go:109-121 | a stored selection matches a request iff it is the selection that request would store itself |
| `CacheRepresentation.MatchesIffAgree` | cache_representation.go:109-117 | what one request stores matches another iff the two carry the same values, or both none, under every Vary name |
| `CacheRepresentation.AllowsMeans` | cache_native.go:104-118 | a native request may use a response iff nothing it varies by is a forwarding header or one the proxy injects |
| `CacheRepresentation.SurvivorDiffers` | cache_store.go:153-161 | a variant that survives a publication has the same Vary names and different values |
| `CacheRepresentation.AtMostOneSelected` | cache_store.go:103-117 | no request selects two retained variants |
| `CacheRepresentation.ScanIsLookup` | cache_store.go:103-117 | the first-match list scan equals lookup in a map keyed by key and variant values |
| `CacheState.RetireBalance` | cache_store.go:182-210 | retiring an entry moves the accounted bytes and the entry count by exactly what its last reference gives back |
| `CacheState.RetireInv` | cache_store.go:182-195 | retiring keeps the list equal to the retained entries and every live entry held by someone |
| `CacheState.LinkInv` | cache_store.go:140-150 | listing an entry that clashes with no retained one keeps the invariant |
| `CacheState.ReplacedInv` | cache_store.go:121-161 | after replacing displaced variants the new entry may be listed |
| `CacheState.ViewsDistinguished` | cache_store.go:153-161 | retained entries of one key share their Vary names and differ in values |
| `CacheState.PurgeEvicts` | cache_store.go:72-80 | a sweep only takes entries off the list; leased ones keep body and lease |
| `CacheState.EvictBytesEvicts` | cache_store.go:62-70 | evicting for bytes stops as soon as they fit, and never touches a leased body |
| `CacheState.EvictSlotsEvicts` | cache_store.go:82-88 | evicting for slots stops as soon as one is free, and never touches a leased body |
| `CacheState.EvictBytesOldest` | cache_store.go:62-70 | evicting for bytes drops the oldest entries, and with one fewer the bytes would not have fitted |
| `CacheState.EvictSlotsOldest` | cache_store.go:82-88 | evicting for slots drops the oldest entries, and with one fewer no slot would have been free |
| `CacheState.DropOldestFate` | cache_store.go:182-210 | a dropped entry stays live while leased and is gone otherwise; every other entry is as before |
| `CacheState.FoundIffAgree` | cache_store.go:103-117 | an entry stored for one request's headers is found by another iff it has not expired, the key is the same and the two agree on every name it varies by |
| `CacheStore.TtlCache.constructor` | cache_store.go:33-45 | an empty, balanced cache with the configured or default limits |
| `CacheStore.TtlCache.Begin` | cache_store.go:48-53 | scratch bytes are charged for an open request, evicting if need be, or nothing is |
| `CacheStore.TtlCache.End` | cache_store.go:55-60 | the scratch bytes of a request come back |
| `CacheStore.TtlCache.ReserveLocked` | cache_store.go:62-70 | succeeds iff the bytes fit once unleased entries are evicted from the head |
| `CacheStore.TtlCache.SweepLocked` | cache_store.go:72-80 | the in-place list walk retires exactly the expired entries |
| `CacheStore.TtlCache.Candidate` | cache_store.go:82-94 | a new leased entry within the slot limit and budget, or none |
| `CacheStore.TtlCache.Attach` | cache_store.go:96-101 | the candidate gets its capture buffer after a sweep |
| `CacheStore.TtlCache.Get` | cache_store.go:103-117 | returns, with one lease more, the entry the map lookup names, after a sweep, or none; never an expired entry, and always an unexpired one the request selects |
| `CacheStore.TtlCache.Publish` | cache_store.go:121-151 | lists the candidate in place of the variants it displaces iff current, unexpired, accountable, allowed and within budget |
| `CacheStore.TtlCache.ReplaceVariantsLocked` | cache_store.go:153-161 | the in-place list walk retires exactly the displaced variants |
| `CacheStore.TtlCache.Release` | cache_store.go:175-180 | one lease is dropped; the last reference gives everything back |
| `CacheStore.TtlCache.RetireLocked` | cache_store.go:182-195 | the entry leaves the doubly linked list; leased, it keeps body and charge |
| `CacheStore.TtlCache.ReleaseLocked` | cache_store.go:197-210 | only the last reference frees body, charge and slot |
| `CacheStore.TtlCache.CaptureBody` | cache_writer.go:54-77 | a captured write charges the growth of the entry's buffer and nothing else |
| `CacheStore.TtlCache.ReleaseBody` | cache_writer.go:79-93 | turning to streaming returns the captured bytes and keeps the lease |
| `CacheRuns.StepInv` | cache_store.go:48-210 | every cache operation keeps the list, lease and variant invariant |
| `CacheRuns.RunInv` | cache_store.go:48-210 | in every reachable state the list is exactly the retained entries and variants of a key are told apart |
| `CacheRuns.LeaseProtectsBody` | cache_store.go:175-210 | over any stretch of a run, a leased body is untouched by eviction, expiry or replacement |
| `CacheRuns.PublishedIsFound` | cache_store.go:103-151 | round trip: what is published is what its own request finds |
| `CacheRuns.AnswersIffAgree` | cache_store.go:103-151 | over every run, a published entry still listed answers a request iff same key, before its expiry, names allowed, and equal values under every Vary name of its publication |
| `CacheRuns.DisplacesIff` | cache_store.go:153-161 | a publication takes another entry off the list iff that one has the same key and other Vary names, or agrees with the new request on its names |
| `CacheRuns.LeasesCounted` | cache_store.go:103-210 | in every reachable state an entry has exactly the leases taken and not given back |
| `CacheFreshness.ParseSeconds` | cache_freshness.go:110-131 | the overflow-guarded loop computes the decimal value capped at the largest duration, and rejects anything but digits |
| `CacheFreshness.ResponseFreshness` | cache_freshness.go:19-37 | freshness is counted from receipt and never outlasts the TTL |
| `CacheFreshness.ValidIffUsable` | cache_freshness.go:19-37 | a header set is used iff its control, date, age and lifetime fields are all well formed |
| `CacheFreshness.InitialAgeSaturates` | cache_freshness.go:64-92 | the initial age is section 4.2.3 of RFC 9111 in unbounded arithmetic, capped |
| `CacheFreshness.LifetimeSaturates` | cache_freshness.go:138-155 | the lifetime is section 4.2.1 of RFC 9111 in unbounded arithmetic, capped |
| `CacheFreshness.ServedIsFresh` | cache_freshness.go:19-69 | what is served is within the TTL and strictly fresh by the standard, saturation included |
| `CacheFreshness.FreshIsServed` | cache_freshness.go:19-69 | short of saturation, everything still fresh is served |
| `CacheFreshness.ReplayIsFresh` | cache_writer.go:167-208 | a replay is fresh under all four header sets: raw and projected, at capture and at finish |
| `CacheFreshness.ReplayedIff` | cache_freshness.go:39-44 | a response is replayed iff all four header sets are usable and each lets it be served, ages and lifetimes capped at the largest duration |
| `CacheFreshness.StoredAge` | cache_freshness.go:39-44 | the stored age is that of the oldest of the four header sets, capped |
| `CacheWriter.CacheWriter.WriteHeader` | cache_writer.go:40-52 | only the first final status counts, whichever way the response is going |
| `CacheWriter.CacheWriter.Write` | cache_writer.go:54-77 | the bytes join what was captured, or follow it on the wire |
| `CacheWriter.CacheWriter.StartStreaming` | cache_writer.go:79-93 | commits the status once, delivers the captured prefix and returns its storage |
| `CacheWriter.CacheWriter.Finish` | cache_writer.go:132-157 | the first final status once, then exactly the producer's bytes; an error only if the outer writer refused |
| `CacheWriter.Serve` | cache_writer.go:40-157 | for every script of producer calls and budget pressure the client sees the first final status once, before any body byte, and exactly the concatenation of the writes |
| `TokenBuckets.RefillComposes` | ratelimit.go:182-189 | refilling on the way changes nothing later |
| `TokenBuckets.DeadlineExact` | ratelimit.go:191-202 | the deadline is the first whole nanosecond at which the bucket is full |
| `UnboundedBuckets.DropAlike` | ratelimit.go:204-220 | a full bucket can be dropped without anyone telling |
| `UnboundedBuckets.AllowAlike` | ratelimit.go:85-115 | one request: any answer but 503 is the unbounded store's answer |
| `UnboundedBuckets.RetirementUnobservable` | ratelimit.go:85-115 | over every run, every answer but 503 equals the unbounded store's |
| `UnboundedBuckets.BurstBound` | ratelimit.go:85-115 | any stretch of requests admits at most capacity plus rate times elapsed time, per key |
| `BucketHistory.AnswerFromHistory` | ratelimit.go:85-115 | over every run, a tracked request is admitted iff an account kept from the earlier requests and answers alone holds a whole token, and is answered 429 otherwise |
| `BucketHistory.CreditExact` | ratelimit.go:108-112 | an admission costs its key exactly one token and nothing else costs anyone anything |
| `BucketHistory.BurstAdmitted` | ratelimit.go:85-115 | the first requests of a key are all admitted, as many as fit in the capacity, unless untracked |
| `BucketHistory.AllowPays` | ratelimit.go:85-115 | under any policy a served request is admitted iff its bucket, full if missing or idled out, holds a whole token, and pays exactly one |
| `BucketHistory.AllowStamps` | ratelimit.go:157-167 | a served bucket idles out the policy's time after the request and is next in line when it does or is full again; under forced eviction, when it does |
| `BucketHistory.EvictsLeastRecent` | ratelimit.go:85-115 | with forced eviction nobody is turned away and the bucket given up is the one least recently asked for |
| `UnboundedBuckets.ExhaustedMeansNoneFull` | ratelimit.go:191-220 | 503 only for a key not held, with the store full and no bucket in it replenished or idle; the store is left as it was |
| `BucketHeap.UpStep` | ratelimit.go:226-247 | one swap upward keeps the heap in order except at the new position |
| `BucketHeap.DownStep` | ratelimit.go:226-247 | one swap downward does the same |
| `BucketHeap.RootLeast` | ratelimit.go:226-247 | the root is due first |
| `BucketStore.Store.constructor` | ratelimit.go:20-77 | an empty store; its capacity is the configured burst, or else twice the rate and at least one token |
| `BucketStore.Store.Swap` | ratelimit.go:226-233 | two buckets change places and both indices follow |
| `BucketStore.Store.Up` | ratelimit.go:226-247 | sifting up restores the order |
| `BucketStore.Store.Down` | ratelimit.go:226-247 | sifting down restores the order below, and reports whether it moved |
| `BucketStore.Store.Fix` | ratelimit.go:157-167 | a bucket with a new deadline finds its place |
| `BucketStore.Store.PushHeap` | ratelimit.go:235-239 | a new bucket joins the heap at its place |
| `BucketStore.Store.PopHeap` | ratelimit.go:241-247 | exactly the root leaves |
| `BucketStore.Store.RemoveHeap` | ratelimit.go:90-94 | exactly the bucket at the index leaves |
| `BucketStore.Store.Refresh` | ratelimit.go:182-189 | tokens and time move to the clock reading, never back |
| `BucketStore.Store.IndexBucket` | ratelimit.go:157-167 | the retirement time follows the idle policy and the heap follows it |
| `BucketStore.Store.Retire` | ratelimit.go:204-220 | the oldest bucket goes iff it is really full or idle; otherwise it gets a new deadline |
| `BucketStore.Store.AllowWithPolicy` | ratelimit.go:85-115 | table and heap hold the same buckets at their indices, in heap order, within the limit, and move as the admission relation says; who is admitted, what is paid and how the bucket is stamped |
| `LeaseLedger.TakeAlive` | retry_request_buffer.go:65-106 | a buffer is only retained while somebody else keeps it |
| `LeaseLedger.LateRetain` | retry_request_buffer.go:65-74 | a retain that nobody protects leaves counter and bytes in step exactly when the bytes are still there |
| `LeaseLedger.GiveAlive` | retry_request_buffer.go:67-117 | a buffer is only released by a hold that still keeps it |
| `LeaseLedger.StepInv` | retry_request_buffer.go:65-117 | every counter equals the outstanding retains, bytes are gone exactly at zero, and the charge is the sum over buffers not yet freed |
| `RetryTransport.WrapInv` | retry_request_transport.go:57-68 | wrapping takes the body's leases under any holds that keep the chain, also after the RoundTrip has returned |
| `RetryTransport.WrapDuringTrip` | retry_request_transport.go:24-45 | while the RoundTrip runs its own hold is enough for any number of wraps |
| `RetryTransport.PublishInv` | retry_request_transport.go:60-67 | a wrapped body joins the registry once |
| `RetryTransport.RetireInv` | retry_request_transport.go:153-175 | a body that retires starts to release a hold it has and nobody depends on |
| `RetryTransport.PopInv` | retry_request_transport.go:91-104 | panic cleanup takes a body out of the registry before it closes it |
| `RetryTransport.ActionInv` | retry_request_transport.go:57-175 | every critical section keeps bodies, holds and registries consistent |
| `RetryRuns.RunInv` | retry_request_transport.go:15-175 | all of that holds in every reachable state of every interleaving |
| `RetryRuns.ReadersKeepBytes` | retry_request_transport.go:125-175 | no buffer of an unretired body is freed, and a body being read has not retired |
| `RetryRuns.FreedForGood` | retry_request_buffer.go:67-74 | a freed buffer is never retained or freed again |
| `RetryRuns.AllReturned` | retry_request_buffer.go:67-117 | once every hold has been given back all buffers are freed and nothing is charged |
| `RetryRuns.NoReadAfterClose` | retry_request_transport.go:125-151 | no read begins once Close has started |
| `RetryRuns.RetiresOnce` | retry_request_transport.go:153-175 | a body retires at most once, after Close has finished with no read in progress |
| `RetryRuns.ReadsCounted` | retry_request_transport.go:125-175 | counted from the actions of every run: the reads in progress are those begun before any close and not ended, and a body gives up its buffers iff Close has finished and every read that began has ended |
| `RetryRuns.RetiresAfterReads` | retry_request_transport.go:153-175 | at the step where a body retires every read that began has ended |
| `RetryRuns.ReadKeepsBytes` | retry_request_transport.go:125-175 | while a read has begun and not ended no buffer of its body is freed |
| `RetryRuns.GivenInOrder` | retry_request_buffer.go:108-117 | releases happen once per buffer, in chain order, never before the body has retired |
| `RetryRuns.CleanupClosesAll` | retry_request_transport.go:91-104 | when cleanup finds the registry empty every body handed out has begun to close |
| `RetryBodies.TransportBody.BeginRead` | retry_request_transport.go:125-133 | a read goes ahead iff Close has not started, and is counted |
| `RetryBodies.TransportBody.FinishRead` | retry_request_transport.go:153-159 | the last read after Close retires the body |
| `RetryBodies.TransportBody.BeginClose` | retry_request_transport.go:138-146 | only the first caller closes |
| `RetryBodies.TransportBody.FinishClose` | retry_request_transport.go:161-167 | Close with no read in progress retires the body |
| `RetryBodies.TransportBody.RetireLocked` | retry_request_transport.go:169-175 | the lease is handed over exactly once |
| `RetryBodies.TransportOwner.Link` | retry_request_transport.go:57-68 | the body joins the front of a well-formed doubly linked list |
| `RetryBodies.TransportOwner.RemoveLocked` | retry_request_transport.go:76-89 | exactly that body leaves the list; a second time changes nothing |
| `RetryBodies.TransportOwner.Close` | retry_request_transport.go:138-151 | the first caller unlinks and closes; later callers change nothing |
| `RetryBodies.TransportOwner.CloseAll` | retry_request_transport.go:91-104 | every registered body ends closed and the list empty |
| `RetryBuffers.NewRetryRequestBuffer` | retry_request_buffer.go:20-28 | a small buffer exactly when the budget has room for it |
| `RetryBuffers.RetryRequestBuffer.Grow` | retry_request_buffer.go:52-63 | doubles up to one past the maximum iff the budget holds both allocations at once |
| `RetryBuffers.RetryRequestBuffer.ReadFrom` | retry_request_buffer.go:33-50 | buffer plus unread stream is always the original body; complete means all of it within the maximum; giving up means full and unable to grow |
| `RequestBuffers.SummedPut` | requestbuffer_runtime.go:48-83 | the counters stay the sums over live buffers when one buffer's reservation changes |
| `RequestBuffers.Manager.Acquire` | requestbuffer_runtime.go:48-57 | a buffer iff open, below the in-flight limit and within the memory budget |
| `RequestBuffers.Manager.ReserveDisk` | requestbuffer_runtime.go:75-83 | disk bytes iff they fit |
| `RequestBuffers.BodyBuffer.Release` | requestbuffer_runtime.go:150-167 | everything reserved comes back exactly with the last reference |
| `RequestBuffers.BodyBuffer.Grow` | requestbuffer_runtime.go:271-289 | doubles up to the limit without losing a byte, iff there is room below the limit and the budget holds both allocations at once; a refusal changes nothing |
| `RequestBuffers.BodyBuffer.Spill` | requestbuffer_runtime.go:194-211 | only with storage configured; on success the file holds exactly what was in memory |
| `RequestBuffers.BodyBuffer.ReadTarget` | requestbuffer_runtime.go:355-364 | never asks for nothing and never for more than one byte past the maximum |
| `RequestBuffers.BodyBuffer.StoreChunk` | requestbuffer_runtime.go:410-421 | the chunk follows what was stored, in memory or on disk |
| `RequestBuffers.BodyBuffer.ReadChunk` | requestbuffer_runtime.go:366-391 | stored bytes plus unread stream are unchanged; each read makes progress or counts as empty; when 413 is answered |
| `RequestBuffers.BodyBuffer.Consume` | requestbuffer_runtime.go:318-353 | terminates for every reader; success means exactly the stream, within the maximum; nothing spills without storage; every refusal has its cause: cancellation, a disk that failed, no room, a failed or oversized read, or a hundred empty reads in a row |
| `RequestBuffers.Serve` | requestbuffer_runtime.go:213-254 | whatever the other requests do in between, the next handler sees exactly the client's bytes or is not called, and afterwards the manager holds what the others hold and nothing else; a body is refused only for one of the named causes |
| `Timeouts.Granted` | responsebuffer_limit.go:112-141 | a grant covers the write, stays within the body limit and within the budget |
| `Timeouts.TimeoutResponseWriter.Write` | timeout.go:106-134 | charged and appended, refused for good, or ignored once anyone has finished |
| `Timeouts.TimeoutResponseWriter.FinishProducer` | timeout.go:147-157 | an abort provoked by the limit is no panic; the buffer goes if the caller has finished |
| `Timeouts.TimeoutResponseWriter.FinishCaller` | timeout.go:159-166 | the buffer goes if the producer has finished |
| `Timeouts.TimeoutResponseWriter.Result` | timeout.go:175-193 | panic before limit before replay before unavailable, and which error stays recorded |
| `TimeoutRuns.MovedOk` | timeout.go:106-193 | every step of one request keeps its writer consistent and the budget within its limit |
| `TimeoutRuns.CounterOk` | timeout.go:38-88 | the in-flight counter moves with the producers it counts, through lost compare-and-swaps too |
| `TimeoutRuns.RunInv` | timeout.go:38-193 | in every reachable state counters equal what they count and stay within bounds |
| `TimeoutRuns.ReachableWriter` | timeout.go:122-193 | released exactly once iff both parties have finished; the failure channel closes at most once; a replay only of a completed producer within limit |
| `TimeoutRuns.ActiveIsRunning` | timeout.go:38-88 | active is the number of running producers and never exceeds the maximum |
| `TimeoutRuns.NoLateCharge` | timeout.go:106-134 | the budget is only charged for a writer neither of whose parties has finished |
| `TimeoutRuns.ReplayStable` | timeout.go:175-210 | a replay is decided before cancellation and its bytes stay until the caller has finished |
| `TimeoutOutcomes.JudgedAsTold` | timeout.go:106-193 | over every run, the outcome is what the steps taken for the request call for: panic, limit, replay or unavailable, and the buffer holds exactly the writes that fitted, in order |
| `TimeoutOutcomes.FinishedIsReplayed` | timeout.go:175-193 | a response written within its bounds and finished, with no deadline or cancellation before it is judged, is replayed in full |
| `TimeoutOutcomes.ActiveCounts` | timeout.go:38-88 | the in-flight counter is producers started minus producers gone, counted from the steps |
| `TimeoutOutcomes.RefusedMeansFull` | timeout.go:38-48 | a request is refused exactly when as many producers as allowed are in flight |
| `TimeoutRuns.AllFinished` | timeout.go:74-88 | when all producers and callers are done nothing is held |
| `DockerReconcile.StepInv` | dockerprovider.go:234-518 | every step keeps each open edge covered, and every requester still in flight with the current run, because stopping waits for the run's own goroutines |
| `DockerReconcile.NoLostWakeup` | dockerprovider.go:319-507 | whoever asked and still waits has a trigger, a debounce, a reconcile or a recorded demand under way, in every reachable state and whichever run it asked |
| `DockerReconcile.RequestersAreCurrent` | dockerprovider.go:234-262 | a run that still has a requester is never replaced |
| `DockerReconcile.EdgeCanClose` | dockerprovider.go:319-477 | what covers a waiter is no dead end: at most ten such steps close the edge |
| `DockerReconcile.PublishedIsCurrent` | dockerprovider.go:410-477 | every published table carries the counters captured before its listing, with no mutation or observation since |
| `DockerReconcile.CountersCount` | dockerprovider.go:453-460 | each counter is the number of mutations of its service, or of observations, among the steps so far |
| `DockerReconcile.PublishesIffQuiet` | dockerprovider.go:410-477 | a publication goes out iff no mutation and no observation came since its counters were captured, and otherwise changes nothing |
| `DockerReconcile.Provider.BeginReconcile` | dockerprovider.go:362-367 | earlier demand is bound to the reconcile that starts |
| `DockerReconcile.Provider.FinishReconcile` | dockerprovider.go:371-378 | reports and clears demand that came too late |
| `DockerReconcile.Provider.PublishGeneration` | dockerprovider.go:462-477 | publishes iff no counter has moved, closing the edge and clearing demand |
| `DockerReconcile.Provider.AskPublication` | dockerprovider.go:496-506 | hands out the open edge and records demand while a reconcile runs |
| `DockerReconcile.Provider.MutateService` | workload.go:2029-2040 | a settled mutation moves its service's counter up by one and no other |
| `DockerReconcile.Provider.ObserveWorkload` | workload.go:279-287 | an invalidated observation moves the observation counter up by one |
| `AcmeOrders.RunInv` | acmemanager.go:393-470 | an unsettled order is the listed one, and a remembered failure is listed or past its cooldown |
| `AcmeOrders.SingleFlight` | acmemanager.go:393-446 | at most one order per host is in flight |
| `AcmeOrders.CooldownRespected` | acmemanager.go:434-470 | an order starts only more than the cooldown after the host's last failure in the run, and with none in flight |
| `AcmeOrders.OrderStartsIff` | acmemanager.go:434-470 | a call starts an order iff none of the host's orders is unsettled and its last failure, if any, is more than the cooldown ago |
| `AcmeOrders.FailureRemembered` | acmemanager.go:413-419 | what is remembered of a host is the reading at the last failure in the whole run not caused by a shutdown, and nothing iff there was none |
| `AcmeOrders.SettledForGood` | acmemanager.go:413-429 | a result handed out never changes |
| `AcmeOrders.WaiterGetsResult` | acmemanager.go:394-402 | a waiter waits, gives up by itself, or receives the settled result of the entry it joined |
| `AcmeOrders.CachedBeforeAnswer` | acmemanager.go:423-428 | a certificate is cached before a waiter hears of it |
| `AcmeOrders.CertIsBrought` | acmemanager.go:412-429 | an entry carries exactly the certificate its own order brought |
| `AcmeOrders.CacheIsLatest` | acmemanager.go:423-425 | the cache holds, for every host, what the order stored last brought |
| `AcmeOrders.Issuer.FindOrCreate` | acmemanager.go:434-446 | a caller owns a new entry iff none is listed or the listed one may be replaced; the run moves by that call |
| `AcmeOrders.Issuer.Forget` | acmemanager.go:451-457 | only the listed entry is dropped; the run moves by that step |
| `AcmeOrders.FailedIsListed` | acmemanager.go:413-429 | an order that has failed and is not yet shown is the listed one, whoever called meanwhile |
| `AcmeOrders.Issuer.SettleLost` | acmemanager.go:413-421 | with calls for any host arriving in between, a failure is stamped before it shows, stays listed and is in its cooldown |
| `AcmeOrders.Issuer.SettleDead` | acmemanager.go:413-421 | an entry that died of a shutdown is unlisted before anyone is woken |
| `AcmeOrders.Issuer.SettleWon` | acmemanager.go:423-429 | a success is cached, then shown, then unlisted; an entry that replaced it in between stays |
| `WeightedRoundRobin.AlwaysBalanced` | strategies.go:101-133 | after every pick the counters sum to zero and each exceeds minus the total weight |
| `WeightedRoundRobin.LevelIsDebt` | strategies.go:101-133 | a counter is picks due minus picks had, in units of weight |
| `WeightedRoundRobin.NeverAhead` | strategies.go:101-133 | no backend is a whole turn ahead of its share |
| `WeightedRoundRobin.FullCycle` | strategies.go:101-133 | after total-weight picks every backend has had exactly its weight and counters are zero |
| `WeightedRoundRobin.WeightedPicker.Pick` | strategies.go:106-133 | the scan picks the first of the largest and moves the candidates' levels by one round, nobody else's |
| `WeightedRoundRobin.PickTimes` | strategies.go:101-133 | any number of picks in a row on a fresh picker serve each backend as often as the vector says; a full cycle serves each its weight if positive and once otherwise |
| `PassiveHealth.PruneWindow` | passivehealth.go:116-122 | drops exactly the leading expired timestamps |
| `PassiveHealth.PassiveRun.Record` | passivehealth.go:63-88 | what is kept, held down and marked, below and at the threshold, in each mode; a stopped run records nothing |
| `PassiveHealth.PassiveRun.Demoted` | passivehealth.go:92-112 | the answer, the pruning and the removal of an expired hold, in each mode |
| `PassiveHealth.PassiveRun.Success` | passivehealth.go:139-148 | a success wipes the backend's failures iff so configured and the run is live |
| `PassiveHealth.DemotedIffHistory` | passivehealth.go:63-122 | with failures recorded in the order of their readings the truncated, lazily pruned window answers exactly as the full history since the last reset does |
| `PassiveHealth.OvertakenFailure` | passivehealth.go:63-77 | an overtaken failure can keep a backend demoted, and can let a demotion be missed |
| `PassiveHealth.WronglyDemoted` | passivehealth.go:63-122 | whenever a failure was overtaken, some window, threshold and later look demote a backend with too few recent failures |
| `PassiveHealth.WronglySpared` | passivehealth.go:63-122 | and some window, threshold and later look spare one with enough |
| `PassiveHealth.ExactIffInOrder` | passivehealth.go:63-122 | the window is exact for every window length, threshold and later look iff no failure since the last reset was overtaken |
| `RouteOrder.SpecificityOrder` | dockerprovider.go:1169-1219 | comparing specificity is a strict weak order |
| `RouteOrder.NarrowerIsMoreSpecific` | internal/docker/match.go:65-112 | for one host, a pattern that takes strictly fewer paths is strictly more specific, whatever the kinds of the two patterns |
| `RouteOrder.HostIsMoreSpecific` | dockerprovider.go:1169-1199 | a route bound to a host beats one that is not, whatever the paths; on one pattern a literal host beats the other kinds |
| `RouteOrder.LessConnected` | dockerprovider.go:1158-1164 | the spelling tiebreak is total on strings |
| `RouteOrder.LessMeans` | dockerprovider.go:1158-1164 | before in spelling means a proper prefix, or less at the first difference |
| `RouteOrder.PrecedesAsymmetric` | dockerprovider.go:1150-1165 | precedence is asymmetric, and ties are exactly equal precedence fields |
| `RouteOrder.PrecedesTransitive` | dockerprovider.go:1150-1165 | precedence is transitive within one priority mode |
| `RouteOrder.MixedModesCycle` | dockerprovider.go:1150-1154 | and cyclic if modes were mixed in one table |
| `RouteDispatch.SortSorted` | dockerprovider.go:1144-1148 | sorting leaves nothing behind a route that precedes it |
| `RouteDispatch.SortMembers` | dockerprovider.go:1144-1148 | sorting neither loses nor invents routes |
| `RouteDispatch.SortStable` | dockerprovider.go:1144-1148 | tied routes keep the order they were found in |
| `RouteDispatch.SortDeterministic` | dockerprovider.go:1140-1148 | in whatever order the same routes come in, the tables agree place by place up to ties, and are equal if only copies tie |
| `RouteDispatch.TiesShow` | dockerprovider.go:1144-1148 | swapping two tied routes that differ changes the outcome of this sort |
| `RouteDispatch.DeterministicIffNoTies` | dockerprovider.go:1144-1165 | this sort alone is independent of the order routes come in iff no two different routes tie |
| `RouteDispatch.TiedPair` | dockerprovider.go:1150-1165 | two routes of one service with one pattern and different constraints tie and come out as they went in |
| `RouteDispatch.NameOrderUnique` | dockerprovider.go:536-537 | there is only one way to put containers in the order of their names |
| `RouteDispatch.EnumerationIrrelevant` | dockerprovider.go:536-1148 | the table does not depend on how containers are enumerated, ties or not, whatever is derived from them in between |
| `RouteDispatch.SortBuilds` | dockerprovider.go:733-737 | the four sorted lists make a table dispatch relies on |
| `RouteDispatch.FindCompiledRoute` | server.go:883-906 | the first matching route; the client address is resolved at most once and only if needed |
| `RouteDispatch.FirstIsBest` | server.go:883-906 | no other match precedes the first one |
| `RouteDispatch.NarrowerWins` | dockerprovider.go:1140-1148 | a route never shadows a narrower one for the same host |
| `RouteDispatch.HostedWins` | dockerprovider.go:1140-1148 | a route for a host is never shadowed by one for every host |
| `RouteDispatch.HighestPriorityWins` | dockerprovider.go:1150-1154 | with priorities, no matching route has a higher one than the route served, nor the same and is more specific |
| `RouteDispatch.FirstSpellingWins` | dockerprovider.go:1155-1165 | among equally specific matches the one served is spelt first by host, path and service |
| `RouteDispatch.FindDynamicCandidate` | server.go:932-957 | a matching route or a matching quarantine; without a matching quarantine the first matching route |
| `RouteDispatch.FindDynamicHandler` | server.go:912-930 | without a matching quarantine, the dispatch function's outcome |
| `RouteDispatch.DispatchIsBestMatch` | server.go:912-930 | a route serves iff it is the first match and strictly more specific than every matching rejection; a tombstone answers only when neither matches |
| `PathStripping.RawTailFromDecodedOffset` | pathrewrite.go:307-323 | the rest of an escaped path after that many decoded bytes, or none |
| `PathStripping.StrippedRawRemainder` | pathrewrite.go:289-301 | the remainder with its boundary slash made literal |
| `PathStripping.TailSplits` | pathrewrite.go:307-323 | the walk splits an encoding where the decoded path splits |
| `PathStripping.SlashSpelling` | pathrewrite.go:326-333 | a decoded slash was a slash or its escape |
| `PathStripping.RemainderKeeps` | pathrewrite.go:289-301 | the remainder decodes to the stripped path and keeps every byte after the boundary |
| `PathStripping.Url.StripPathPrefix` | pathrewrite.go:264-282 | the raw path is left out only when redundant, and otherwise still decodes to the stripped path, rooted and verbatim |
| `MiddlewareOrder.MiddlewareForListener` | middleware_order.go:104-117 | the loop builds the listener's flattened chain |
| `MiddlewareOrder.ChainIsItsLeaves` | middleware_order.go:104-117 | a listener's chain is the leaves of the tree, in tree order, that lie in no listener group without its name |
| `MiddlewareOrder.CollectNames` | middleware_order.go:121-130 | every name mentioned at any depth |
| `MiddlewareOrder.ValidateRepresentation` | resolve.go:1400-1419 | accepts iff nothing writes the content coding of a chain that compresses |
| `MiddlewareOrder.ValidateCacheOrder` | cache_policy_order.go:11-25 | accepts iff no address policy or request ID follows an enabled cache |
| `MiddlewareOrder.ValidateOwnership` | requestid_policy.go:61-76 | accepts iff there is at most one request ID and its output header is permitted |
| `MiddlewareOrder.ValidateCredentials` | basicauth_credentials.go:13-42 | accepts iff, with basic authentication in the chain, no header operation supplies the credentials, directly or through a request ID mapped in front of the last authentication |
| `MiddlewareOrder.RulesOverKinds` | middleware_order.go:131-138 | the rules spelt out over the kinds of middleware |
| `MiddlewareOrder.ValidateResolvedMiddlewares` | middleware_order.go:119-140 | accepts iff the chains of every mentioned listener and of the empty name pass all four rules |
| `MiddlewareOrder.PassesWithin` | middleware_order.go:131-138 | leaving elements out of a chain that passes never makes it fail |
| `MiddlewareOrder.UnmentionedAlike` | middleware_order.go:104-117 | listeners nobody mentions get one and the same chain |
| `MiddlewareOrder.UnmentionedWithin` | middleware_order.go:104-117 | the chain of a listener nobody mentions is part, in order, of every other listener's chain |
| `MiddlewareOrder.AcceptedIsComplete` | middleware_order.go:119-140 | an accepted tree is well ordered for every listener, mentioned or not |

## Left out

- Configuration, resolution, TLS, certificates, DNS-01, Cloudflare, tracing, compression, the Docker client and label extraction: long but shallow, or foreign code.
- Parsing of the Vary field into names, Cache-Control parsing and header projection: their results are inputs here; eligibility predicates would only add easy members.
- Cache lookups while the outer handler copies trailers, and HEAD handling on replay: plumbing around the modelled store and writer.
- TokenBuckets.DeadlineExact: assumes the clock difference itself does not saturate, so readings more than 292 years apart are outside the model, and tokens are exact reals rather than `float64`.
- Rate-limit reservations with a delay: built on a foreign limiter.
- LeaseLedger.TakeAlive: a hold is taken only under handlers, producers or RoundTrips that keep the chain until it has been taken; a body asked for when nobody but another body keeps the buffers is outside the model, and `LateRetain` says what such a retain would do.
- RequestBuffers.BodyBuffer.Retain: replay readers of a finished request buffer are counted by the lease books, not by the class.
- DockerReconcile.PublishedIsCurrent: the counters are unbounded, so wrapping of 64-bit counters is outside the model; building the table from containers is opaque.
- RouteDispatch.FindDynamicHandler: says nothing about requests that match a quarantine, and DispatchIsBestMatch nothing about priority mode; both depend on matcher details that are not part of this model.
- RouteDispatch.SortRoutes: an insertion sort stands for the library's stable sort; `SortSorted`, `SortMembers` and `SortStable` are what a stable sort promises.
- WeightedRoundRobin.WeightedPicker.Pick: candidates have distinct identities, as the backends of one pool do; the other pickers would only add easy members.
- AcmeOrders.CooldownRespected: clock readings do not go back.
- AcmeOrders.Issuer.SettleWon: between the owner's sections other callers arrive; other owners' completions in between are covered by the run theorems, to which every section of the class is tied.
- MiddlewareOrder.ValidateOwnership: which output headers a request ID may use is an opaque predicate, and header names are folded.
- RequestBuffers.Serve: the other requests are seen through the totals they leave, not one by one; room is promised to a body by what they are taken to leave, twice its memory limit and its maximum on disk.
- BucketHistory.AnswerFromHistory: for requests without an idle policy; `AllowPays` and `AllowStamps` say the same of one request under any policy.
- RetryBuffers.RetryRequestBuffer.ReadFrom: speaks about any number of reader answers rather than about termination, because the source does not bound empty reads.
- Host matching, peer and client constraints of routes: opaque predicates of the request.
- File contents, socket binding, logging and metrics.
