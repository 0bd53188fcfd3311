# fabrica-net in Dafny

fabrica-net is a Go network layer: servers accept connections, a worker per connection authenticates the
peer and then exchanges length-prefixed, encrypted packs with a client dialog, and buffers come from
lock-free ring pools. This project models the parts of it that carry state and proves what they keep over
every input, every call sequence or every interleaving.

`dafny verify dfyconfig.toml` checks everything. The files, from the bottom up:

- **Buffers.** `RingMachine` is the ring pool as a machine of atomic loads, compare-and-swaps, stores and adds
  taken by any number of threads; `RingRuns` and `RingCalls` hold the theorems about all its runs and
  about the calls in them. `RingSpec` says what one
  undisturbed call does, `RingFifo` what happens when buffers come back in order, `PoolMachine` adds the shared
  fallback buffers to the machine, `RingPool` and `MultiPool` are the mutable pool objects. `WordFacts` and `Bits` supply the 64-bit arithmetic, `Bytes` the packs.
- **Frames.** `Frame` is the wire format as functions on byte sequences, `Codec` the object that reads into
  pooled buffers.
- **Sessions.** `Links` is one direction of a connection that may break anywhere, `Protocol` the machine of one
  dialog and one worker, `ProtocolRuns` its theorems, `Endpoints` the dialog and the worker as objects over codecs,
  byte streams and pooled buffers that refine that machine, `Sessions` whole sessions of these objects.
- **Workers.** `Spread` and `Shards` cover the hash and the shards, `Registry` and `RegistryRuns` one flat map
  with the uid index beside it, `Workers` the sharded manager that refines it, `Server` its clients, `ConnIds`
  the connection ids, `UidSafety` several managers sharing the index.
- **Tunnels and tuning.** `Tunnels` and `TunnelRuns` are the tunnel manager, alone and under concurrency, `TunnelCalls` how
  concurrent calls end,
  `PushWindow` the push-failure window, `Tuner` the adaptive KCP configuration.

## What the code does differently from what one might expect

- A ring position whose slot is still taken when head reaches it is lost for good. `SkipsShrinkTheRing` bounds the
  loss by capacity - 1, and `SkipBoundIsReached` reaches the bound with one long-lived buffer.
- `available` loads head and tail separately, so its answer can exceed the number of free slots and even the
  capacity. `AvailableOverestimates` says exactly when, `AvailableCanExceedCapacity` shows it on every ring.
- `Del` passes a uint64 to an index keyed by int64, so index entries are never removed although the comment on the
  index says they are (`IndexNeverShrinks`). The model follows the code.
- `Del` lowers the size counter even for an absent id, so a Disconnect counts twice (`SizeDrift`,
  `DisconnectCountsTwice`).
- A shard count that is not a power of two leaves buckets unused (`AllBucketsUsedIffPowerOfTwo`).
- User lookup is safe across managers exactly when their net types differ (`UidLookupSafeIffNetsDistinct`).
- When the body of a frame is cut short, `Decode` has already set its named result `free` to nil before the deferred
  function calls it. The model gives this path its own outcome, `NilFreePanic`, and its buffer stays lent.
- The receive loop of a dialog defers its frees inside the loop, so every frame buffer stays out until the loop ends
  (`ReceiveOnce`, `EndReceive`).
- `Encode` checks no length. `RoundTrip` and `MisreadIff` say exactly which packs survive and which are misread.
- A pack sent before `WaitAuthed` returns can be opened under the wrong mode (`UpModesAgreeIff`,
  `EarlySendIsMisread`).
- `Broadcast` and `Multicast` drop the joined push error and return success.

## Model

| member | source | states |
|---|---|---|
| RingMachine.StepKeepsInv | internal/ringpool/pool.go:102-142 | Every atomic step of any thread keeps slot exclusion, the account of positions, what threads in mid-operation know, and that unlent ring buffers are zero. |
| RingMachine.RunKeepsInv | internal/ringpool/pool.go:91-152 | The same over whole runs, in which the count of skipped positions never falls. |
| RingRuns.MutualExclusion | internal/ringpool/pool.go:118-142 | In every reachable state no slot has two holders, and its state word is 1 exactly when it has one, from the slot CAS to the slot store. |
| RingCalls.EveryCallIsAnswered | internal/ringpool/pool.go:91-144 | In every run the Allocs begun are the buffers handed out plus those still trying, and the Frees begun are tail plus those under way: no call is lost, whoever wins the races for head and slots. |
| RingCalls.AllocEndsWithABuffer | internal/ringpool/pool.go:102-126 | A step of Alloc ends the call exactly when it hands out one buffer, a slot that was free or a fallback; any other leaves the thread inside Alloc and nothing handed out. |
| RingCalls.AloneCompletes | internal/ringpool/pool.go:102-144 | From every reachable state a thread anywhere inside Alloc or Free, with whatever it loaded before, completes when it goes on alone: Alloc with one buffer, Free with its slot zeroed and free and tail advanced. |
| RingCalls.HolderKeepsItsBytes | internal/ringpool/pool.go:118-144 | What a caller writes to its ring buffer stays there, whatever other threads do, until it writes again or frees it. |
| RingRuns.PositionsConserved | internal/ringpool/pool.go:102-141 | head - tail is always claimed in flight + held + released but not yet bumped + skipped, and tail <= head <= tail + capacity despite the two separate loads. |
| RingRuns.LentBufferIsZero | internal/ringpool/pool.go:115-121 | The step that hands out a ring buffer hands out one that is zero over its whole capacity, in every interleaving. |
| PoolMachine.EveryBufferIsZero | internal/ringpool/pool.go:102-152 | The same for every buffer of the pool's size, from the ring or from the shared fallback bag, and no other caller has it. |
| PoolMachine.ReachableRing | internal/ringpool/pool.go:81-152 | The fallback bag does not disturb the ring, so the ring's theorems hold with it; whatever the bag keeps is zero. |
| PoolMachine.SpareComesBack | internal/ringpool/pool.go:146-151 | Free leaves a fallback buffer zero in the bag, where the next caller may get it. |
| PoolMachine.SpareIsLeftAlone | internal/ringpool/pool.go:81-152 | In every run a lent fallback buffer keeps its bytes until its caller writes or frees it, and a dropped one never returns. |
| RingRuns.FallbackOnlyWhenFull | internal/ringpool/pool.go:103-113 | A thread goes to the fallback only if every position was accounted for at the moment it loaded tail, although head was loaded earlier. |
| RingRuns.SkipsShrinkTheRing | internal/ringpool/pool.go:106-124 | Skipped positions never come back, never exceed capacity - 1, and limit how many buffers can be lent for the rest of the run. |
| RingRuns.SkipBoundIsReached | internal/ringpool/pool.go:106-124 | For every capacity a run that holds one buffer while Alloc/Free pairs cycle past it skips capacity - 1 positions and leaves Alloc on the fallback with all other slots free. |
| RingRuns.RestingRingServes | internal/ringpool/pool.go:102-121 | Whenever nothing is lent or in flight, the next Alloc runs to completion on the ring with a zero buffer, whatever was skipped before. |
| RingRuns.SoloRetry | internal/ringpool/pool.go:102-126 | A lone caller's retry loop ends, by the distance from head to tail + capacity, in the state Take describes. |
| RingRuns.SoloAlloc | internal/ringpool/pool.go:91-127 | A lone caller's atomic steps of Alloc lead to the state Take describes. |
| RingRuns.SoloFree | internal/ringpool/pool.go:130-144 | A lone caller's atomic steps of Free undo the slot and advance tail as Give describes. |
| RingRuns.AvailableOverestimates | internal/ringpool/pool.go:188-193 | With any steps between the two loads, the reported number is at most the number of free slots if and only if the positions claimed in between do not exceed those in flight, being bumped or skipped. |
| RingRuns.AvailableIsExact | internal/ringpool/pool.go:188-193 | With none in between, it is the free slots less the positions in flight, being bumped or skipped; when no call is in progress, less the skipped ones alone. |
| RingRuns.AvailableCanExceedCapacity | internal/ringpool/pool.go:188-193 | On every ring a run between the two loads makes it report capacity + 1. |
| RingSpec.TakeAccounts | internal/ringpool/pool.go:102-126 | A position that head passes either hands out a slot or is skipped, and the ring stays within its capacity. |
| RingFifo.FifoUseLosesNothing | internal/ringpool/pool.go:102-193 | After any calls that free in allocation order the lent slots are positions tail .. head - 1, Alloc takes the slot at head, falls back iff no slot is free, and Available is the number of free slots. |
| RingFifo.AllocInOrder | internal/ringpool/pool.go:102-126 | In that use the slot at head is always free, so the slot CAS cannot fail. |
| RingFifo.FreeInOrder | internal/ringpool/pool.go:130-144 | Freeing the oldest buffer keeps the lent slots exactly tail .. head - 1. |
| RingPool.NewRingBufferPool | internal/ringpool/pool.go:56-87 | Which argument fails with which error, and that an accepted pool is empty, zero and of the given size. |
| RingPool.RingBufferPool.Alloc | internal/ringpool/pool.go:91-127 | All sizes: a zero buffer the pool no longer keeps, from the ring as Take says, the fallback or the heap, with the counters. |
| RingPool.RingBufferPool.ClaimSlot | internal/ringpool/pool.go:102-126 | The retry loop terminates and computes Take. |
| RingPool.RingBufferPool.GetFallback | internal/ringpool/pool.go:81-84 | The fallback gives a zero buffer of the pool's size that is not in the ring. |
| RingPool.RingBufferPool.Free | internal/ringpool/pool.go:130-152 | Ring buffers are zeroed and given back, others of the right size are zeroed and join the fallback, the rest is left alone; allocCount - freeCount stays the lent buffers plus non-positive and oversize Allocs minus Frees of foreign buffers. |
| RingPool.ClearBuffer | internal/ringpool/pool.go:155-160 | The whole backing array becomes zero. |
| MultiPool.NewMultiSizeRingPool | internal/ringpool/multipool.go:16-37 | Succeeds iff every entry is acceptable, whatever the map order; the manager, its pools, slot tables and buffers are all new, unused and ready to use; a failure reports the error of an entry that is not. |
| MultiPool.MultiSizeRingPool.Alloc | internal/ringpool/multipool.go:40-53 | The smallest pool that fits serves, all other pools are untouched, and the heap serves iff none fits. |
| MultiPool.MultiSizeRingPool.Free | internal/ringpool/multipool.go:56-64 | A buffer goes back to the pool that lent it, a foreign one of a pool's capacity joins that pool's fallback and is counted as foreign, and one of any other capacity joins no pool and keeps its bytes. |
| MultiPool.CountsBalance | internal/ringpool/multipool.go:40-64 | Per pool AllocCount - FreeCount is the outstanding buffers plus the non-positive Allocs, less Frees of foreign buffers: no Alloc was ever too large for its pool. |
| MultiPool.MultiSizeRingPool.DecryptAndFree | xnet/crypto.go:44-50 | The pack handed on, in plain mode a clone, is apart from every buffer of the pools, so that it keeps its bytes when its frame buffer is zeroed and lent again. |
| Bits.BitTrickIsExact | internal/ringpool/pool.go:61-63 | The capacity test accepts exactly the powers of two. |
| Bits.MaskIsRemainder | internal/ringpool/pool.go:116 | Masking with capacity - 1 is the remainder modulo a power-of-two capacity, for all 64-bit words. |
| Frame.RoundTrip | tcp/frame/codec.go:58-110 | Decoding an encoded pack followed by anything returns the pack and the rest if and only if its length is 1 .. 16384. |
| Frame.EncodedHeader | tcp/frame/codec.go:58-77 | For every pack the wire has four bytes that are its length modulo 2^32, most significant first, and then the pack. |
| Frame.EncodedBytes | tcp/frame/codec.go:58-77 | For lengths 1 .. 16384 these bytes are 0, 0, length / 256, length % 256. |
| Frame.DecodedBytes | tcp/frame/codec.go:79-110 | For all bytes, which of the four results Decode gives and with what: a frame exactly when the header is two zero bytes and a big-endian length in 1 .. 16384 and the body is there. |
| Frame.MisreadIff | tcp/frame/codec.go:59-87 | A different pack comes out if and only if the length wraps at 32 bits to an acceptable one. |
| Frame.ShortPackIsNeverMisread | tcp/frame/codec.go:85-87 | Below 4 GiB an unacceptable pack is rejected by its length. |
| Frame.ListRoundTrip | tcp/frame/codec.go:58-110 | A list of packs survives the wire if and only if all lengths are acceptable. |
| Frame.PrefixOfEncodedList | tcp/frame/codec.go:79-110 | Any prefix of the bytes yields only a prefix of the list before the first failure. |
| Frame.CompleteFramesAreDelivered | tcp/frame/codec.go:79-110 | Such a prefix yields every pack whose frame is complete. |
| Frame.CutStreamDeliversPrefix | tcp/frame/codec.go:79-110 | For arbitrary bytes, more bytes only extend what a reader gets. |
| Codec.Codec.Encode | tcp/frame/codec.go:58-77 | The connection receives what was pending and then exactly the frame, whose header is given byte by byte. |
| Codec.Codec.Decode | tcp/frame/codec.go:79-110 | A success lends one buffer holding the bytes that the big-endian header announces, bad lengths lend nothing, a truncated body ends in the nil call with one buffer lent for good; what is left to read, and valid pools, in every case. |
| Codec.Codec.Read | internal/worker.go:259-268 | Decode, decrypt, free, under any cipher: a new pack apart from all pool buffers, and the buffer is given back also when the cipher refuses; only a truncated body keeps one. |
| Codec.Codec.ReadLoop | internal/worker.go:167-178 | Over a whole connection the packs handed on are exactly the decoded and decrypted ones up to the first failure, and at the end each still holds its bytes although its buffer was zeroed and reused; the pools have lent what they had lent before. |
| Codec.PlainHandlesAll | xnet/crypto.go:44-47 | Under a plain session and a service that refuses nothing, these are all packs of the stream. |
| Links.ReadGetsNext | tcp/frame/codec.go:79-110 | Whatever frame comes out of a possibly cut stream is the next one that went in. |
| Protocol.StepKeepsInv | internal/worker.go:90-119 | Every step of dialog, worker, application and network keeps both directions' accounts of frames, modes, keys and packs. |
| ProtocolRuns.DownModesAgree | internal/dialog.go:98-141 | In every run each frame to the client is decoded in the mode it was encoded in. |
| ProtocolRuns.UpModesAgreeIff | internal/worker.go:232-268 | In every run the frames to the worker are decoded in their modes if and only if none but the first was encoded before the dialog had its session. |
| ProtocolRuns.SendAfterAuthIsSafe | internal/dialog.go:146-164 | Sending only after WaitAuthed returns meets that condition. |
| ProtocolRuns.EarlySendIsMisread | internal/dialog.go:146-156 | For every cipher, key and pack a run with an earlier Send disagrees on the mode and hands the service what the cipher makes of the plain bytes, or stops the worker. |
| ProtocolRuns.HandledIsPrefixOfSent | internal/worker.go:250-283 | In every run the packs given to Handle are a prefix of those sent after auth. |
| ProtocolRuns.ReceivedIsPrefixOfPushed | internal/worker.go:150-165 | In every run the packs the client receives are a prefix of those Push accepted. |
| ProtocolRuns.DrainedMeansDelivered | internal/dialog.go:122-156 | On an intact connection with nothing in flight no pack is missing in either direction. |
| ProtocolRuns.NextPackIsHandled | internal/worker.go:259-282 | With lengths 1 .. 16384 on an intact connection a running worker can take its next turn, and it hands over the next pack. |
| ProtocolRuns.NextPackIsReceived | internal/dialog.go:130-141 | The same for the dialog's receive loop. |
| ProtocolRuns.HandleDeliversNext | internal/worker.go:259-282 | Whenever a running worker decodes a frame, intact connection or not, it opens it and hands over the next pack sent after auth. |
| ProtocolRuns.ReceiveDeliversNext | internal/dialog.go:130-141 | Whenever the dialog decodes a frame after auth, it opens it and delivers the next pack that Push accepted. |
| ProtocolRuns.RefusedPackEndsReceiving | internal/dialog.go:130-141 | In every run a pack that the cipher refuses ends the receive loop for good: nothing is delivered then or later. |
| ProtocolRuns.RefusedPackEndsReading | internal/worker.go:250-283 | The same of the read loop, for a refusing cipher or service; a pack the service refuses is the last it is handed. |
| Endpoints.EndToEnd | internal/dialog.go:98-156 | Of the objects, in any state their methods and the network lead to: both sessions are the same, the received packs are a prefix of those pushed and the handled packs of those sent after auth. |
| Endpoints.DialogEnd.SendPack | internal/dialog.go:146-156 | Refused exactly when the stopping flag is set, also after the receive loop has failed; otherwise one frame sealed under the dialog's session is written, in a reachable state of the protocol; says which packs count as sent after auth and which as early. |
| Endpoints.DialogEnd.TakeReply | internal/dialog.go:105-119 | The session is replaced exactly when a frame decodes and the auth function accepts it, with the key it derives; in every case the state stays reachable and the reply's buffer is back. |
| Endpoints.DialogEnd.ReceiveOnce | internal/dialog.go:130-141 | A frame in the codec's input becomes the next pushed pack in the queue and the loop goes on; without one, or when the cipher refuses, it ends; the frame buffer stays out. |
| Endpoints.DialogEnd.EndReceive | internal/dialog.go:135 | The deferred frees give back exactly the buffers of all turns of the loop, once it ends. |
| Endpoints.WorkerEnd.ReadHello | internal/worker.go:100-105 | Auth is called exactly when a frame decodes, with its bytes; the state stays reachable and the handshake buffer is back. |
| Endpoints.WorkerEnd.Answer | internal/worker.go:107-113 | The reply goes out plain, as one frame, before the session is replaced; a failed Auth writes nothing and ends the worker. |
| Endpoints.WorkerEnd.PushPack | internal/worker.go:214-226 | Accepted exactly for a non-empty pack while not stopping, in a reachable state; accepted packs are those the client is to get. |
| Endpoints.WorkerEnd.ReadOnce | internal/worker.go:250-283 | A frame in the codec's input reaches the service as the next pack sent after auth, its buffer is back when the turn ends, and the loop goes on exactly when the frame decodes and opens and the service accepts it. |
| Endpoints.DeliverUp | internal/worker.go:232-268 | Bytes moving from the writer's side to the reader's are invisible to the protocol, however they are split. |
| Endpoints.Connect | internal/dialog.go:35-48 | Both ends, their codecs and the network are new and in the initial state of the protocol. |
| Sessions.SendUp | internal/worker.go:250-283 | On an authenticated connection a pack given to Send is the pack the service handles, and its buffer is back. |
| Sessions.SendDown | internal/worker.go:214-248 | A pack given to Push is the pack the client receives; one buffer more is out. |
| Sessions.Converse | internal/dialog.go:50-156 | A whole session over the objects, for any packs both ways: from a new connection through the handshake to the end of the receive loop, the service has handled exactly what was sent, the client has received exactly what was pushed, and the pools have lent what they had lent before. |
| Shards.HashIsBijective | internal/workermanager.go:138-147 | wyhash is a bijection on 64-bit words, with its inverse. |
| Shards.HashValues | internal/workermanager.go:138-147 | The hash values of four ids, as literals: they fix its shifts and multipliers. |
| Shards.BucketInRange | internal/workermanager.go:133-135 | The bucket is in range for every shard count from 1, and is the hash modulo a power of two. |
| Shards.BucketsAreEven | internal/workermanager.go:133-147 | With a power of two every bucket receives exactly 2^64 / shardCount ids. |
| Shards.AllBucketsUsedIffPowerOfTwo | internal/workermanager.go:133-147 | Every bucket is reachable if and only if the shard count is a power of two. |
| Workers.WorkerManager.constructor | internal/workermanager.go:21-33 | A new manager is empty, has one bucket per shard and finds them with the hash; with at least one shard it is valid. |
| Workers.WorkerManager.Worker | internal/workermanager.go:35-41 | Agrees with the flat map. |
| Workers.WorkerManager.Put | internal/workermanager.go:43-53 | Agrees with the flat map: an occupied id leaves workers, index and counter as they were and returns its worker, a free one adds the worker, points its user's index entry at it and counts it. |
| Workers.WorkerManager.Del | internal/workermanager.go:55-59 | Agrees with the flat map; the index keeps its entry and the counter falls in any case. |
| Workers.WorkerManager.Walk | internal/workermanager.go:61-80 | No registered worker twice, none missed unless the callback stops, and none after it stops. |
| Workers.WorkerManager.GetByUID | internal/workermanager.go:82-93 | Agrees with the flat lookup through the index. |
| Workers.WorkerManager.GetByUIDs | internal/workermanager.go:95-127 | Regrouping by bucket finds exactly the workers that single lookups find, keyed by their own uid. |
| RegistryRuns.SizeDrift | internal/workermanager.go:43-59 | Over all call sequences size is the registered count minus the number of Dels of absent ids. |
| RegistryRuns.DisconnectCountsTwice | internal/server.go:128-188 | Disconnect followed by the deferred delete takes two off the counter for one worker. |
| RegistryRuns.IndexNeverShrinks | internal/workermanager.go:49-56 | A uid is in the index if and only if some Put stored it, whatever was deleted since. |
| RegistryRuns.LatestPutWins | internal/workermanager.go:82-93 | With fresh ids the lookup gives the user's latest worker while it is registered, else nothing. |
| RegistryRuns.BatchedLookupIsPointwise | internal/workermanager.go:95-127 | On one manager, for any fresh ids, the batched lookup is exactly the map of the single lookups that find something. |
| UidSafety.BatchPointwiseIffNetsDistinct | internal/workermanager.go:95-127 | Over all runs of managers that share the index, with a state of its own for every index load and every bucket load, the batch is exactly the map of the single lookups if and only if the net types differ. |
| UidSafety.SameNetTypeMisfilesBatch | internal/workermanager.go:95-127 | Two managers of one net type: a batch for one user answers with another. |
| UidSafety.GatheredIsCollected | internal/workermanager.go:95-127 | What the manager's own GetByUIDs ensures is an instance of such a batch. |
| UidSafety.BatchedLookupIsPointwise | internal/workermanager.go:95-127 | The consequence for it: exactly the map of the single lookups. |
| UidSafety.SizeDrift | internal/workermanager.go:43-59 | In every interleaving of map operations and counter adds, a counter is off from its registered count by the deletes that found nothing and the adds still due. |
| RegistryRuns.ReusedIdConfusesUsers | internal/workermanager.go:55-93 | With a reused id the stale entry answers with another user's worker. |
| RegistryRuns.ReusedIdMisfilesBatch | internal/workermanager.go:95-127 | And a batched lookup of the first user alone answers for the second and not for the first. |
| Server.BaseServer.Broadcast | internal/server.go:248-270 | Each matching registered worker is tried exactly once; the status ignores push errors. |
| Server.BaseServer.Multicast | internal/server.go:229-246 | Each found user is pushed to once even when uids repeat; the status ignores push errors. |
| Server.BaseServer.Disconnect | internal/server.go:178-195 | The four outcomes; the worker is deleted also when stopping it then fails. |
| ConnIds.NextIsId | internal/listener.go:41-43 | Below 2^60 connections the shifted and or-ed word is 16 * counter + net type; with it UidSafety shows that no id is issued twice. |
| ConnIds.IdsRepeatAfterTheBound | internal/listener.go:41-43 | After 2^60 more connections the same id returns. |
| UidSafety.UidLookupSafeIffNetsDistinct | internal/workermanager.go:43-93 | Over all runs of several managers with interleaved map operations, and any steps between the index load and the bucket load of a lookup, no lookup returns another user's worker if and only if the net types differ. |
| UidSafety.UndisturbedPut | internal/workermanager.go:43-53 | The map operations and the add of a Put, one after the other, are the flat Put, also under an occupied id. |
| UidSafety.UndisturbedDel | internal/workermanager.go:55-59 | Those of a Del are the flat Del. |
| UidSafety.SameNetTypeConfusesUsers | internal/listener.go:41-43 | Two managers of one net type reach a state where it does. |
| TunnelRuns.AtMostOneLive | internal/tunnelmanager.go:32-96 | In every interleaving at most one tunnel per type and object id is not stopping. |
| TunnelRuns.CallersAgree | internal/worker.go:201-212 | Callers get the same tunnel unless the one returned first began to stop. |
| TunnelCalls.CallEndsWithATunnel | internal/worker.go:201-212 | In every interleaving a caller of Tunnel stays in its call for its key until a step returns a tunnel for that key, live when asked or just filed, or creation fails, tried only with none live. |
| TunnelCalls.EveryCallIsAnswered | internal/worker.go:201-212 | In every run the calls begun are those that returned, those whose creation failed and those in progress. |
| TunnelCalls.LoneCallerGetsItsTunnel | internal/tunnelmanager.go:32-72 | With the mutex free a caller left alone gets a live tunnel for its key: the one that was live, found by the lookup, or, iff there was none, a new one. |
| TunnelCalls.LoneCallCompletes | internal/tunnelmanager.go:49-72 | The same from any point inside the call, once the mutex is free or its own. |
| TunnelCalls.StopEndsEmpty | internal/tunnelmanager.go:74-96 | A caller of stop stays inside until it leaves with no entry and no live tunnel. |
| TunnelCalls.LoneStopCompletes | internal/tunnelmanager.go:74-96 | With the mutex free, a stop whose tunnels obey it completes, whatever is filed. |
| TunnelRuns.StopLeavesNothingLive | internal/tunnelmanager.go:74-96 | When stop leaves the mutex no tunnel made so far is live. |
| Tunnels.TunnelManager.Lookup | internal/tunnelmanager.go:32-47 | The filed tunnel if it is not stopping, else nothing. |
| Tunnels.TunnelManager.CreateTunnel | internal/tunnelmanager.go:49-72 | The usable tunnel, else a fresh one that is usable afterwards, else nothing; other entries are kept. |
| Tunnels.TunnelManager.Stop | internal/tunnelmanager.go:74-96 | All groups are gone and every tunnel they held is stopping. |
| Tunnels.WorkerTunnel | internal/worker.go:201-212 | Lookup then creation give the usable tunnel or a fresh one, and an unknown module changes nothing. |
| PushWindow.OverloadIff | internal/tunnel.go:117-136 | The exact law: overload at a push iff the last eleven pushes failed and none of the last ten restarted the window, where a failure restarts iff it comes more than 10 seconds after the restart before it, and successes have no part. |
| PushWindow.WindowIs | internal/tunnel.go:117-136 | At any time the window starts at the last restarting failure and counts the failures since it and since the last success. |
| PushWindow.OverloadNeedsElevenFailures | internal/tunnel.go:123-136 | Overload is reported only after 11 consecutive failures within 10 seconds. |
| PushWindow.TwentyOneFailuresSuffice | internal/tunnel.go:96-136 | Any 21 consecutive failures spanning at most 10 seconds report overload by the 21st. |
| PushWindow.TwentyFailuresMayNot | internal/tunnel.go:123-136 | Twenty within a nanosecond need not. |
| PushWindow.ElevenAfterRestart | internal/tunnel.go:128-135 | Eleven within 10 seconds of a restarted window do. |
| PushWindow.Tunnel.RecordPushErr | internal/tunnel.go:123-136 | The new window and the report. |
| PushWindow.Tunnel.ScLoop | internal/tunnel.go:96-121 | The loop ends with the first push that meets the exact law, and goes on through all others. |
| Tuner.Tuned | kcp/util/config.go:122-169 | Every field in every case: no-delay and windows by latency, parity one up iff loss is high with data shards and parity below 5, one down iff loss is low and parity above 1, MTU and windows by throughput; a valid base gives a valid configuration, other fields stay. |
| Tuner.AverageBetween | kcp/util/config.go:131-137 | When the sum fits, the truncated average lies between any bounds of the samples. |
| Tuner.AverageRoundsTowardZero | kcp/util/config.go:131-137 | It is the mean rounded toward zero. |
| Tuner.OverflowedAverage | kcp/util/config.go:131-137 | When it does not, the average can be negative for positive samples. |
| Tuner.AdaptiveConfigTuner.AddRTTSample | kcp/util/config.go:107-112 | The samples are the last min(n, 100) since Reset. |
| Tuner.AdaptiveConfigTuner.AverageRTT | kcp/util/config.go:132-137 | Wrapping every partial sum gives the wrapped total, divided toward zero. |
| Tuner.AdaptiveConfigTuner.TuneConfig | kcp/util/config.go:122-169 | Within the interval nothing changes; after it the configuration is what latency, loss and throughput call for, field by field from the base. |
| Tuner.AdaptiveConfigTuner.Reset | kcp/util/config.go:175-181 | Base configuration, no samples, no metrics. |

## Left out

- Stop internals of `xsync.Stoppable`, and sends on channels closed by a concurrent stop: the stopping flag is taken to be monotone, and a tunnel's Stop to have set it on return.
- Bounds of the send and receive channels: the model's queues never block, which only adds runs.
- Write errors and partial writes: a frame is written whole or, once the connection is cut, not at all; errors of the cipher's Encrypt likewise.
- Deadlines, the tick loop, filters other than the identity, contexts and logging.
- AES and ECDH: the cipher is a parameter with Decrypt after Encrypt the identity, and the client derives the worker's key from a reply it accepts.
- That an encrypting session's Decrypt returns a new slice, as plain mode does by cloning, is taken for granted of the AES library in `MultiSizeRingPool.Decrypt`, and so in `DecryptAndFree` and `Read`.
- Wrap-around of the 64-bit head, tail and statistics counters of the ring pool: they are unbounded.
- Clients of the ring pool that free twice, free a foreign slice of the same backing array, or write after Free.
- The garbage collector emptying `sync.Pool`: the fallback is a set from which Get takes any element or makes a new buffer.
- Workers.WorkerManager.Walk: is stated for a manager that does not change meanwhile; what `sync.Map.Range` shows of concurrent changes depends on the runtime.
- Packs of 4 GiB and more in the session theorems; `MisreadIff` says what the codec does with them.
- BaseServer.Stop, WIDList, Push and the single-worker accessors: easy members over Walk and GetByUID.
- KCP and WebSocket codecs, listeners, dialers, smux, statistics ratios, options, IP helpers and examples.
- RingPool.RingBufferPool.Free: asks that the buffer is not already back in the pool, the free-once discipline its callers follow.
- MultiPool.MultiSizeRingPool.Free: asks the same of the pool for the buffer's capacity.
- Endpoints.DialogEnd.TakeReply, Endpoints.WorkerEnd.ReadHello: what the auth function and Auth do with the pack is their own; the model keeps the pack's bytes for them and returns the buffer at once.
- MultiPool.MultiSizeRingPool.Alloc: excludes a negative size on a manager without pools, with which `make` panics.
- Tuner.ValidConfig is the acceptance condition of Validate; which of its error messages is returned is not modelled.
