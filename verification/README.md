# zrpc in Dafny

A model of the parts of zrpc that are easiest to get wrong, with proofs of what they promise. Everything is
checked by `dafny verify dfyconfig.toml`.

- **Wire codec.** `Headers` is the bit-packed 11-byte header. `Wire` is the printer and the parser of message data
  as functions; `Frames` is whole messages as values; `Compression` is the compressor interface. `Codec` holds
  `Encode` and `Decode` as the code runs them: two passes over the metadata map in whatever order `range` visits
  it, a recycled buffer that is filled at an advancing offset, a nested-loop parser.
- **Metadata.** `Metadata` compares the outgoing metadata that a context collects lazily with the eager join.
- **Timeout.** `Timeout` is the rounded-up `zrpc-timeout` header, the Timeout grammar of the Requests section of
  the gRPC over HTTP/2 protocol document.
- **Buffers.** `Buffers` and `BufferSafety` are reference-counted buffers over recycled arrays, handles and
  counters, for every run of operations; `Pool` is the size-class pool; `SliceReader`, `ReaderRuns` and `ReadAll`
  are the cursor over many buffers and the copies to and from it.
- **Client.** `ClientPool` is the connection pool, the retrying callers, the prewarmer, the heartbeats and the
  server's replies as one machine of atomic steps; `ClientSafety` is its invariant. What follows for every run and
  every continuation is in `ClientTheorems` (places and counts), `ClientStarvation`, `ClientReplies` and
  `ClientLateness`; `ClientDrive` is how one thread is driven to a wanted position. `Invoke` is the retry loop with
  its deferred closures and the heartbeat; `InvokeThreads` is that the machine's threads do what the retry loop does,
  and can do all of it. `CallTable` is the table of pending calls as a class.
- **Server.** `Dispatch`, `DispatchSafety` and `DispatchTheorems` are the worker pool: its machine, its invariant
  and what follows.
- **Registry.** `Registry` is the two-level lease map as a class, proved against a flat map; `LeaseRuns` is its
  timed runs with the sweeper and the heartbeat checkers.

Concurrent code is modelled by interleaving: each step is one critical section, channel operation or atomic
instruction, and a theorem about runs holds for every sequence of enabled steps. What the machine decides from
outside (the outcome of a dial, a health probe, a read; the clock; the order of a map) is a parameter of the step or
a nondeterministic choice.

Taken as given: unzipping what gzip zipped gives back non-empty data (`Compression.GzipLaw`), and `strings.ToLower`,
the parameter `lower`, is idempotent. It may change lengths.

## Where the code and what is written about it differ

The model follows the code.

- The header is 11 bytes (protocol/message.go:91); the table in the repository's README shows 12.
- The repository's README names a maximum connection limit; prewarming does not respect it, and `size + max(1, size/4)`
  connections are reached (`ClientTheorems.BoundIsReached`). `ClientTheorems.LimitExactly` says exactly when it is
  kept.
- A heartbeat never succeeds and closes its connection without giving back its place in the pool, so `size` of them
  leave callers unable to dial ever again (`ClientStarvation.HeartbeatsStarve`); `ClientStarvation.StarvationExactly`
  says exactly when that is so.
- A connection whose receive failed goes back into the pool, and its late reply can be delivered to another caller
  (`ClientReplies.AbandonedReceiveMisdelivers`). `ClientReplies.ReceiveExactly` and `ClientReplies.GetExactly` say
  exactly when, and `ClientLateness.SafeExactly` that a connection that has timed out once is never safe again.
- A key with no values, or with more than 255, is not restored (`Frames.NotRestored`); `Frames.RoundTripExactly`
  gives the exact domain.
- A comment says a worker restarts after 65536 requests; the loop counts empty polls too
  (`DispatchTheorems.RecycledAfter`, `DispatchTheorems.IdleRounds`). Another says surplus workers leave by
  themselves; they never do (`DispatchTheorems.PopulationNeverShrinks`).
- A heartbeat checker that has found a lease expired removes it even if it is renewed in between
  (`LeaseRuns.FreshLeaseRemoved`); `LeaseRuns.LeaseSafetyExactly` says exactly when a lease kept alive stays.

## Model

| member | source | states |
|---|---|---|
| Bytes.GetPut | protocol/message.go:225-262 | reading a little-endian field gives what was written, modulo the field's width |
| Bytes.PutGet | protocol/message.go:296-419 | writing what was read gives the same bytes |
| Headers.VersionIndependent | protocol/message.go:99-104 | setting the version changes what that getter reads and no other |
| Headers.MessageTypeIndependent | protocol/message.go:107-114 | the message type keeps its lowest bit and every other field is untouched |
| Headers.HeartBeatIndependent | protocol/message.go:127-138 | the heartbeat flag is read back and every other field is untouched |
| Headers.StatusIndependent | protocol/message.go:117-124 | setting the status changes that field alone if and only if the argument is one bit wide |
| Headers.CompressIndependent | protocol/message.go:141-148 | setting the compression changes that field alone if and only if the argument is one bit wide |
| Headers.SeqRoundTrip | protocol/message.go:151-158 | a sequence number is read back modulo 2^64 and every other field is untouched |
| Headers.ViewDetermines | protocol/message.go:91-158 | two headers that read the same and agree on magic and unused bits are the same bytes |
| Compression.DefaultsAreLossless | protocol/compress.go:11-44 | whatever either default compressor shortens can be unzipped to the original |
| Compression.ShorterIsZipped | protocol/compress.go:11-26 | Zip's result is shorter than its input only when it is gzip output, and is otherwise the input itself |
| Wire.BodyLength | protocol/message.go:173-214 | the bytes printed for message data are as many as the size formula says |
| Wire.ParsePrinted | protocol/message.go:327-445 | the parser reads printed data back, with the bytes after it left over |
| Wire.PrintParsed | protocol/message.go:327-445 | whatever the parser accepts is the print of what it returns |
| Wire.ParserIsExact | protocol/message.go:327-445 | the parser returns a body if and only if the input is that body's print, for every byte string |
| Frames.OrderedSize | protocol/message.go:174-181 | the size of the metadata does not depend on the order in which the map is visited |
| Frames.CollectOrdered | protocol/message.go:371-412 | decoding the entries of lower-case keys with values, in any order, rebuilds the map |
| Frames.CollectSize | protocol/message.go:371-412 | a decoded map is never larger than its bytes, and no key outgrows the count byte when it is equally large, unless some key is the lower case of a shorter name |
| Frames.CompressBit | protocol/message.go:186-211 | the compress bit on the wire is set if and only if the payload sent is shorter compressor output; revoking it changes nothing else the header says |
| Frames.DefaultCompressBit | protocol/message.go:186-211 | with the default compressors the bit is set if and only if gzip was asked for, the payload has 1024 bytes and gzip shortens it, and the payload sent is then gzip output, otherwise the raw payload |
| Frames.DefaultsAreLosslessEnv | protocol/compress.go:11-44 | the round trip applies to the shipped compressors |
| Frames.ExactTiling | protocol/message.go:211-267 | the length computed first is the number of bytes written, for any two orders of the two passes |
| Frames.CompressedLengthIsWirePayload | call.go:307-333 | the client's compressedLength is the number of payload bytes on the wire, compressed or not |
| Frames.ReadFull | protocol/message.go:281-296 | what is read and what is left make up the stream |
| Frames.RoundTrip | protocol/message.go:172-445 | Decode of Encode restores header, names, metadata and payload of every carried message, for every visiting order, and leaves what follows |
| Frames.RestoredIsCarried | protocol/message.go:172-445 | a frame that is restored, compressed or not, has a zrpc header, lower-case keys with 1 to 255 values, and a length within 32 bits and the limit |
| Frames.RoundTripExactly | protocol/message.go:172-445 | a frame is restored if and only if it is carried: for every message under 4 GiB with at most 255 values a key; and, where no key is the lower case of a shorter name, for all others under 4 GiB or sent uncompressed |
| Frames.NotRestored | protocol/message.go:244-257 | a message with a key of 256 values, or of none, is not restored |
| Frames.EmptyKeyIsLost | protocol/message.go:396-410 | no message with a key without values is restored, whatever its size and compression |
| Frames.SelfDelimiting | protocol/message.go:270-325 | any list of carried messages sent back to back is read back as that list, with what follows untouched |
| Codec.ByteStream.ReadFull | protocol/message.go:281-296 | fills the buffer with the next bytes, or fails with the stream used up |
| Codec.MetaLength | protocol/message.go:173-181 | the first pass over the map, in whatever order, gives the order-free size |
| Codec.PutMetadata | protocol/message.go:243-258 | the second pass writes each key once, exactly that many bytes, after what was written before |
| Codec.ReadStr | protocol/message.go:378-388 | a length-prefixed string is read at the offset as the pure parser reads it, or fails as it does |
| Codec.Message.constructor | protocol/message.go:80-87 | a new message has the magic number and nothing else |
| Codec.Message.Clone | protocol/message.go:161-170 | a reply made from a request says what the request's header says, so echoes its sequence number, without compression |
| Codec.Message.Compress | protocol/message.go:186-211 | the decision leaves the header and payload of the pure description |
| Codec.Message.Encode | protocol/message.go:172-268 | whatever the buffer held, its bytes become exactly the frame of the message, for the order the map was visited in |
| Codec.Message.DecodeValues | protocol/message.go:396-410 | the values loop refines the pure parser and appends to the key it read, or fails as it does |
| Codec.Message.DecodeEntries | protocol/message.go:376-412 | the entries loop refines the pure parser and collects the map, or fails as it does |
| Codec.Message.SetPayload | protocol/message.go:425-442 | the payload is unpacked as the header's compress bit says |
| Codec.Message.DecodeTail | protocol/message.go:357-423 | metadata and payload are read as the pure parser reads them, or the same error is given |
| Codec.Message.DecodeMessageData | protocol/message.go:327-445 | the offset-driven parser refines the pure one on every byte string, never out of range |
| Codec.Message.DecodePooled | protocol/message.go:313-324 | the pooled path reads and parses the same bytes, and its array is back in the pool after a read error, a parse error and success |
| Codec.Message.Decode | protocol/message.go:270-325 | Decode refines the pure decoder on every stream by either path, errors and the rest of the stream included, and owes the pool nothing afterwards |
| Codec.Transmit | protocol/message.go:172-325 | a carried message encoded, sent with anything after it and decoded is restored as it was sent, the rest untouched |
| Metadata.AddList | metadata/metadata.go:31-34 | the pairs loop adds the pairs in order |
| Metadata.Pairs | metadata/metadata.go:25-37 | pairs are collected under lower-case keys in order, and an odd list panics |
| Metadata.JoinOne | metadata/metadata.go:87-91 | joining one map appends its values key by key, in any order of visiting |
| Metadata.Join | metadata/metadata.go:85-93 | the join is the key-by-key concatenation of all the maps |
| Metadata.AppendToOutgoingContext | metadata/metadata.go:110-124 | the context gains one list with its keys in lower case and keeps those before it; an odd list panics |
| Metadata.FromOutgoingContext | metadata/metadata.go:128-159 | nothing without outgoing metadata; otherwise the base is lowered in the order visited, then every collected list is added; an odd list panics |
| Metadata.AddPairsIsMerge | metadata/metadata.go:25-37 | adding pairs one by one is merging with the map they make by themselves |
| Metadata.LazyIsEager | metadata/metadata.go:106-159 | after any sequence of appends the context reads as the join of the lower-cased base and the pairs of each call, value order kept |
| Metadata.OrderIrrelevantExactly | metadata/metadata.go:140-146 | the base reads the same in every visiting order if and only if keys that collide in lower case carry equal values |
| Timeout.DecodeEncode | protocol/timeout.go:57-104 | every encoding has at most 9 characters and decodes to the duration rounded up to its unit |
| Timeout.RoundedBound | protocol/timeout.go:49-77 | rounding never shortens, never overflows, and lengthens by less than one part in 99999 |
| Timeout.TimeoutBound | protocol/timeout.go:49-104 | every positive duration is accepted back as one no shorter and longer by less than one part in 99999 |
| Timeout.RoundedMonotone | protocol/timeout.go:57-77 | a longer duration never becomes a shorter one, across all changes of unit |
| Timeout.Canonical | protocol/timeout.go:57-104 | encoding the decoded duration gives the same string |
| Timeout.TimeoutCanonicity | protocol/timeout.go:57-104 | decode after encode is monotone and re-encoding gives the same strings |
| Timeout.DecodeExactly | protocol/timeout.go:80-104 | the decoder accepts exactly one to eight digits and a unit, and gives their product cut off at the largest duration |
| Pool.FindPool | mem/buffer_pool.go:118-125 | finds the class of exactly this size if there is one |
| Pool.FindBestFitPool | mem/buffer_pool.go:127-134 | finds the smallest class that is large enough, or says there is none |
| Pool.FindClosestPool | mem/buffer_pool.go:136-143 | finds the largest class that is not larger, or class 0 when all are |
| Pool.BufferPool.Get | mem/buffer_pool.go:72-92 | returns exactly the length asked for within the capacity, and an array nobody else has |
| Pool.BufferPool.Put | mem/buffer_pool.go:95-116 | every class keeps its capacity if and only if the array is empty or at least as large as the smallest class |
| Pool.AnyRun | mem/buffer_pool.go:72-116 | in every run that only puts back what Get gave, each Get returns exactly the length asked for |
| BufferSafety.DoKeeps | mem/buffer.go:34-144 | every operation a caller may make keeps the ownership invariant |
| BufferSafety.Ownership | mem/buffer.go:34-144 | in every run a counter is the references out over all handles, no live view covers a pooled array, each wrapped array is returned once, and recycled counters are zero |
| BufferSafety.OthersUndisturbed | mem/buffer.go:34-144 | an operation on one handle leaves the bytes and references of every other |
| BufferSafety.SplitBytes | mem/buffer.go:129-144 | split cuts the bytes in two handles under one counter, each with its own reference |
| BufferSafety.ReadBytes | mem/buffer.go:78-91 | read moves the front off the handle, or frees it when nothing is left |
| SliceReader.Memory.Read | mem/buffer.go:78-91 | the front of the buffer that fits is copied to the caller, and the handle moves past it or is freed |
| SliceReader.RefAll | mem/buffer_slice.go:30-34 | each occurrence of a buffer gains one reference and nothing else changes |
| SliceReader.FreeAll | mem/buffer_slice.go:23-27 | each occurrence of a buffer loses one reference |
| SliceReader.SliceLen | mem/buffer_slice.go:13-20 | the length of the flat byte string |
| SliceReader.Reader.constructor | mem/buffer_slice.go:96-102 | the reader stands at the start of the flat string and holds one reference for each occurrence |
| SliceReader.Reader.FreeFirstBufferIfEmpty | mem/buffer_slice.go:172-185 | the first buffer is freed if and only if it is used up, and what is left to read stays the same |
| SliceReader.Reader.Read | mem/buffer_slice.go:120-139 | delivers the next bytes of the flat string, as many as fit or are there, and EOF exactly at the end |
| SliceReader.Reader.ReadByte | mem/buffer_slice.go:141-157 | delivers the next byte past any empty buffers, or EOF at the end |
| SliceReader.Reader.Close | mem/buffer_slice.go:159-164 | every handle has the references it had before NewReader |
| SliceReader.Reader.Remain | mem/buffer_slice.go:166-168 | how many bytes are left |
| ReaderRuns.Perform | mem/buffer_slice.go:120-164 | any one operation delivers the next bytes of what is left |
| ReaderRuns.Session | mem/buffer_slice.go:96-185 | any mix of reads and closes delivers the prefix of the flat string that was asked for, and leaves every reference count as it was |
| ReadAll.CopyTo | mem/buffer_slice.go:72-78 | fills the destination with the front of the flat string and leaves the rest of it |
| ReadAll.Materialize | mem/buffer_slice.go:38-46 | the whole flat string |
| ReadAll.MaterializeToBuffer | mem/buffer_slice.go:54-66 | one buffer with the flat string and one new reference, no other count changed |
| ReadAll.Write | mem/buffer_slice.go:194-198 | the slice reads as before followed by the bytes written, with no array lost |
| ReadAll.FillOne | mem/buffer_slice.go:229-249 | an array is filled to its capacity or up to the stream's end, zero-byte reads included |
| ReadAll.ReadOne | mem/buffer_slice.go:223-250 | one array's worth of stream is moved to the end of the result and its array wrapped or put back |
| ReadAll.ReadAll | mem/buffer_slice.go:222-251 | for every chunking of a plain stream the result is the whole stream, the error is its error, and every array taken is in the result or put back |
| ReadAll.ReadAllWriterTo | mem/buffer_slice.go:213-221 | a source that writes itself, in any chunks, is read whole, with its error, and no array is lost |
| ClientSafety.InvStep | clientconn.go:65-250 | every step of callers, prewarmer, heartbeats and server keeps the invariant of places, counts, locks, wires, outstanding numbers and table |
| ClientSafety.InvRun | clientconn.go:42-250 | the invariant holds in every reachable state |
| ClientTheorems.Exclusivity | clientconn.go:94-250 | in every run each connection is in exactly one of hot queue, cold queue, one holder, or discarded, so no two calls share one |
| ClientTheorems.Conservation | clientconn.go:65-220 | in every run `created` is hot + cold + held + closed without release, and is at most size + max(1, size/4) |
| ClientTheorems.LimitStep | clientconn.go:65-91 | the one step that passes the limit is a successful prewarming dial when size connections are counted already |
| ClientTheorems.LimitExactly | clientconn.go:65-91 | a run stays within the limit if and only if no prewarming dial succeeds at the limit |
| ClientTheorems.BoundIsReached | clientconn.go:65-91 | for every size some run creates size + max(1, size/4) connections, more than the limit |
| ClientStarvation.LostStep | call.go:174-180 | a failed send adds the sender's connection to those never uncounted, and no other step changes them |
| ClientStarvation.StarvationExactly | clientconn.go:94-250 | in every reachable state, no continuation lets a caller dial if and only if size connections are closed without release or held by a caller whose send has failed |
| ClientStarvation.CanDial | clientconn.go:94-250 | from any state with fewer, some continuation ends in a caller's dial |
| ClientStarvation.HeartbeatsStarve | client.go:163-216 | heartbeats alone bring the pool to that state, for every size |
| ClientReplies.ReplyMatching | call.go:126-202 | a caller on a connection with no failed receive gets the reply to the sequence number it sent, and its own call |
| ClientReplies.RepliesMatch | call.go:126-202 | in every run where each receive decodes a whole frame, every successful call gets its own reply |
| ClientReplies.OtherStep | call.go:126-202 | to a caller that waits, all that other threads, prewarmer and server do is answer requests on its connection |
| ClientReplies.ReceiveExactly | call.go:366-396 | over every continuation in which it waits, a caller can only decode its own reply if and only if the stream is dead, or whole with its own reply first, or none there and no other request unanswered |
| ClientReplies.GetExactly | call.go:126-202 | over every continuation of a call on a connection just got, the reply decoded is its own if and only if the stream is dead, or whole with nothing outstanding |
| ClientLateness.Lateness | call.go:197-202 | on every whole stream the replies owed, besides the one its holder waits for, are as many as the receives that timed out between frames |
| ClientLateness.SafeExactly | call.go:197-202 | a connection with a whole stream is safe to call on if and only if no receive on it ever timed out |
| ClientReplies.AbandonedReceiveMisdelivers | call.go:197-202 | a run in which a caller is handed another caller's reply after a receive timed out between frames |
| Invoke.RunDeferred | call.go:134-138 | whatever closures have piled up over the retries, those whose connections are not released put them back, last first, and no other does anything |
| Invoke.Invoke | call.go:55-239 | whatever happens to its attempts, each connection it gets is put back or closed exactly once, on every retry and return path |
| Invoke.Beat | client.go:185-215 | for every call, health and write: the connection got is given up once, and closed rather than put back if and only if it is unhealthy, the call has no request or the write fails |
| Invoke.Heartbeat | client.go:163-216 | a heartbeat's call has no request, so for either health its connection ends closed, given up once and not put back |
| Invoke.InvokeFollows | call.go:126-202 | invoke holds one connection at a time and none when it returns |
| Invoke.ReleasedOnce | call.go:126-202 | at every moment a connection was got as often as it was given up, plus once if it is in hand |
| InvokeThreads.ThreadsFollow | call.go:126-202 | every thread of the pool's machine takes and gives up connections under the same rule |
| InvokeThreads.ThreadsAreInvokes | call.go:126-202 | what a thread of the machine does with connections is, in every run, what some sequence of invoke's attempts does |
| InvokeThreads.AttemptsHappen | call.go:126-202 | in every reachable state, a thread that has just got a connection has, for each fate of an attempt, a continuation that does with the connection what that attempt does |
| CallTable.Table.Issue | call.go:248-263 | a new number, never used before, is pending under its own key, or the client is closing and nothing changes |
| CallTable.Table.ForgetFailedWrite | call.go:358-361 | a pending number becomes write-failed; any other is untouched |
| CallTable.Table.Receive | call.go:381-396 | a number is answered if and only if it is pending, hence once; the mismatch error never occurs |
| CallTable.Table.Close | client.go:249-279 | every pending call is failed and notified once, every other fate stays, and nothing is pending any more |
| CallTable.NotifyAll | client.go:274-277 | the loop fails and notifies each pending call once, in any order |
| DispatchSafety.InvStep | server.go:131-193 | every step of workers, submitters and stop keeps the invariant of places, counts and loads |
| DispatchSafety.InvReaches | server.go:131-193 | the invariant holds at the end of every run from a state that has it |
| DispatchTheorems.DispatchConservation | server.go:569-596 | in every run each submitted function is in exactly one of queued, with one worker, in its own goroutine, ended once, or dropped by a stop, and is called at most once |
| DispatchTheorems.OldestFirst | server.go:150-155 | workers take functions in the order submitted |
| DispatchTheorems.LoadsAreCalls | server.go:163-187 | the load counters add up to the calls in progress on in-range ids, and each is the number on its id |
| DispatchTheorems.PopulationNeverShrinks | server.go:131-193 | until the channel is closed, live workers plus scheduled replacements never decrease, whatever is stored in numWorkers |
| DispatchTheorems.RecycledAfter | server.go:144-192 | in every run a worker that restarts has run as many functions as the threshold less its empty polls, so the threshold if and only if it never found the channel empty |
| DispatchTheorems.IdleRounds | server.go:144-161 | an idle worker reaches the restart threshold by empty polls alone |
| Registry.FlatDetermines | registry/registry.go:9-13 | without empty address maps the flat view determines the two-level map |
| Registry.Registry.constructor | registry/registry.go:24-33 | a new registry has no leases |
| Registry.Registry.Register | registry/registry.go:35-54 | exactly one lease is added or replaced |
| Registry.Registry.Unregister | registry/registry.go:56-76 | exactly that lease is removed, with an error if and only if there was none, and no empty address map is left |
| Registry.Registry.Heartbeat | registry/registry.go:78-94 | only the time of an existing lease changes; a missing one is an error and is not brought back |
| Registry.Registry.IsExpired | registry/registry.go:96-111 | true if and only if the lease is missing or its last ping is more than the timeout ago |
| Registry.Registry.GetService | registry/registry.go:113-128 | each address with a lease once, or an error if and only if there is none |
| Registry.Registry.GetAllServices | registry/registry.go:130-140 | each service with a lease once |
| Registry.SweepService | registry/registry.go:151-160 | one service keeps exactly its unexpired addresses, or goes, and no other service changes |
| Registry.Registry.Sweep | registry/registry.go:146-163 | exactly the unexpired leases stay, in whatever order the maps are visited, and no empty address map is left |
| LeaseRuns.Play | registry/registry.go:35-164 | one step of a run, played on the registry object, leaves it the leases that step gives |
| LeaseRuns.PlayAll | registry/registry.go:35-164 | a whole run, played on the registry object, leaves it the run's leases |
| LeaseRuns.LeaseSafety | registry/registry.go:35-164 | a lease renewed at gaps of at most the timeout stays listed through any interleaving when no checker is armed |
| LeaseRuns.LeaseSafetyExactly | registry/tcp_registry.go:175-195 | keeping a lease alive keeps it listed if and only if no checker of it is between its test and its removal |
| LeaseRuns.ArmedRemoves | registry/tcp_registry.go:186-191 | from any state with an armed checker some run removes a lease renewed at that moment |
| LeaseRuns.FreshLeaseRemoved | registry/tcp_registry.go:186-191 | a run from the start in which a newly registered lease is removed at once |
| LeaseRuns.Expiry | registry/registry.go:142-164 | a silent lease is gone after last ping + timeout + one on-time sweep period |
| LeaseRuns.ExpiryIsTight | registry/registry.go:142-164 | it can still be listed exactly at that time |

## Left out

- Sockets, TLS, deadlines, listeners, logging and statistics: outcomes of steps, or absent.
- Gzip and protobuf internals: payloads are bytes, and gzip is a pair of functions with the inverse law.
- Frames.RoundTripExactly: says nothing of compressed messages of 4 GiB and more, where another compressed payload might unzip to the same data, nor, when some key is the lower case of a shorter name (U+2C65 is that of U+023A), of messages of 4 GiB and more or with more than 255 values under a key.
- Lengths are unbounded integers: a message whose lengths overflow a 64-bit int is not modelled, while the 32-bit length fields and the count byte are.
- Codec.Message.Decode: the message's fields after a failed decode are not described, nor how long decoded names and metadata stay valid once the pooled buffer is freed.
- Codec.Message.Encode: the array comes from an allocation with arbitrary contents; that the pool gives such an array is `Pool.BufferPool.Get`.
- BufferSafety.DoKeeps: buffers are values in a heap with identifiers rather than objects, so Ref, Free, split and read are steps of that heap; the nil-pool path of NewBuffer and the panics on misuse (freeing a freed buffer, splitting past the end) are outside the operations allowed.
- Pool.BufferPool.Put: an array from elsewhere that is smaller than the smallest class is kept in class 0, where Get may slice past its capacity; runs that only put back what Get gave never do this.
- Connection pool at and after Close: runs end there.
- ClientReplies.ReceiveExactly: a torn stream may yield any number; the bytes inside a torn frame are not modelled.
- ClientSafety.InvStep: timeouts, waits, health probes and dials are nondeterministic, and the server answers any request it received at most once.
- Invoke.Invoke: its attempts are a parameter; backoff, deadlines and statistics are not modelled.
- InvokeThreads.AttemptsHappen: an attempt that sends needs a sequence number, and the counter is taken before it wraps.
- CallTable.Table.Issue: the sequence counter is taken before it wraps at 2^64.
- How numWorkers is chosen: the stores of the monitor and of quickScaleUp are arbitrary, and so is when they call workerCreator.
- DispatchTheorems.LoadsAreCalls: the int32 load counters are unbounded integers.
- Dispatch after the channel is closed: a submission then panics and is not a step.
- A heartbeat checker's ticker: it may test at any time, which covers every tick.
- LeaseRuns.Expiry: sweeps are taken to come at most one period apart; the code's period is half the timeout.
- Discovery's round robin and random selection, metadata.New and the incoming context, etcd, the registry's JSON transport, options, stats handlers, tracing, graceful-stop timing and the code generator.
