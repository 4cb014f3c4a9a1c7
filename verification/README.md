# Signal K Edge Link: verified model

Signal K Edge Link carries vessel data over lossy UDP. This project models the parts of it that hold state or encode
bytes, and proves what they promise. The model is written in Dafny 4.11; `dafny verify dfyconfig.toml` checks all of it.

Each component has the same layout.

* A file named after the component holds its state as a value, and one function per operation. Where the program is
  asynchronous, the state also holds what the event loop owes it (armed timers, suspended calls, sends in flight), and a
  run is any sequence of events. Code between two `await`s is one step, as JavaScript runs it.
* The theorem files prove properties of every run from the start, or of every input. Those named for effects, layout,
  wire and progress say what goes in and what comes out in plain numbers, bytes and fields, without the functions of the
  specification.
* The service files hold the same operations as classes and loops that update fields, maps and arrays in place, as the
  program does; every method is proved to do what the specification function says. `Valid()` of an object is the
  invariant that the theorems prove of every run, so whoever calls its methods keeps those results: the safety of the
  send loop, the registry's order, cap and account, the spacing of switches and the probe accounts, the reload
  handler's single loop, the manager's agreement of running and registered instances. Methods without `Valid()` are
  the pieces that one callback is made of.

| component | specification | theorems | objects and loops |
|---|---|---|---|
| outbound send loop | `SendLoop` | `SendLoopSafety`, `SendLoopAccounting`, `SendLoopDrain`, `SendLoopEffects` | `SendLoopService`, `DeltaIntake` |
| value deduplication | `ValueDedup`, `JsonValue` | `ValueDedup`, `JsonValue`, `DedupWire` | `ValueDedupService` |
| CRC | `Crc`, `Bytes` | `Crc`, `CrcTable` | `CrcTable` |
| packet codec | `Packet`, `Bytes` | `PacketTheorems`, `PacketLayout`, `PacketNumbering` | `PacketService` |
| connection manager | `Manager` | `ManagerSafety`, `ManagerProgress` | `ManagerService` |
| duplicate suppression | `DedupeKey`, `DuplicateSuppression` | `DedupeKey`, `SuppressionWindow` | `DedupeKey`, `DuplicateSuppression` |
| path throttle | `Throttle` | `Throttle`, `ThrottleSpacing`, `ThrottleRuns` | `ThrottleService` |
| bonding | `Bonding`, `CircularBuffer` | `BondingProbes`, `BondingSafety`, `BondingEffects` | `BondingService`, `CircularBuffer` |
| congestion control | `Congestion` | `CongestionTheorems`, `CongestionEffects` | `CongestionService` |
| compact deltas, path dictionary | `CompactDelta` | `CompactDeltaTheorems`, `CompactWire` | `CompactDeltaService` |
| source registry | `SourceRegistry` | `SourceRegistryTheorems` | `SourceRegistryService` |
| configuration reload | `ConfigReload` | `ConfigReloadTheorems` | `ConfigReloadService` |

`Common`, `JsMap` (the insertion-ordered `Map`), `LruHistory` (what such a map holds when it is written least recently
first) and `Decimal` (numerals) are shared.

## Conventions

* A clock is a parameter that never goes back; an operation that reads it several times takes several readings.
* Numbers are exact: `real` for averages, thresholds and times, `int` where the code truncates or masks. `Math.round(x)`
  is the floor of `x + 0.5`.
* A machine word is a sequence of bits, so masks and shifts are written out; `TWO32` marks each reduction modulo 2^32.
* HMAC-SHA256 is an arbitrary function from key and bytes to sixteen bytes (truncation as in section 5 of RFC 2104 is
  part of it). No property of it is used except that it is a function.
* Serialising and parsing a payload are inverse to each other.

## Where the code does not do what it says

Each of these is a proved statement about the code as it is.

* `stableRepr` is documented to tell values apart, NaN from null among them. It does so at the top level; inside a
  value it forgets what JSON forgets. `JsonValue.ReprsAgreeExactly` says exactly when two values print alike,
  `JsonValue.NoLookAlikeExactly` which values no other one looks like: every object has a look-alike, with one more
  undefined field. A repeat that differs only there is restored as the older value
  (`ValueDedup.NestedNaNIsRestoredAsNull`, `ValueDedup.PairRestored`), so what every run restores is the value up to
  what JSON forgets (`ValueDedup.RestoredUpToJson`), and exactly the value for those that hold nothing undefined or
  non-finite inside (`ValueDedup.ExactRestoration`).
* An application value that has the shape of the deduplication sentinel does not arrive: it is dropped, or the receiver
  hands on the older value of its path (`ValueDedup.SentinelShapedValue`), and the caches part. Only when it repeats a
  cached value that prints like the sentinel does nothing go wrong; `ValueDedup.LockstepExactly` is the exact condition
  over runs.
* A successful send over a buffer overflow removes deltas that were never sent and counts others twice: the numeric
  totals stay right, the element-by-element account does not
  (`SendLoopAccounting.ExactAccounting` says exactly when, `SendLoopAccounting.OverlapRunIsNotAccounted` is a run).
* The throttle joins context, source and path with spaces and prints an absent context as "undefined", so different
  values can share one record; `ThrottleSpacing.RecordIsOwn` says exactly which do not. The interval is still kept
  (`ThrottleRuns.RunKeepsIntervals`); the deadband then compares different quantities
  (`ThrottleRuns.DeadbandComparesOthers` is a run), and `ThrottleRuns.DeadbandKeptExactly` says for which values it is
  kept in every run.
* When initialization completes while the backup is the active link, the primary is marked active although it is not the
  one in use. A forced failover while `initialize()` waits for a socket leads there
  (`BondingSafety.ForcedSwitchDuringStart`), and so does any failover followed by `stop()` and a second `initialize()`
  (`BondingSafety.RestartOnBackup`); `BondingSafety.AtMostOneActive` gives the exact condition.
* The congestion controller's 2 per cent steps can round to nothing before the timer is near its nominal value.
  `CongestionTheorems.ConvergesExactly` gives the two kinds of configuration for which that happens, and
  `CongestionTheorems.StuckRunNeverArrives` a run for each. Both need a minimum below 25 ms. The configuration check
  admits only minima from 50 ms (src/connection-config.ts:547), so this concerns a controller that is built directly.
* The suppression window of 1500 ms is not kept when more keys are accepted within it than the map holds, 5000
  (`SuppressionWindow.FloodBreaksTheWindow`, and `SuppressionWindow.WindowCanBreak` for a run written out).
  `SuppressionWindow.WindowKeptExactly` is the exact condition; it counts the keys that an unbounded history accepts, and
  `SuppressionWindow.FewKeysOffered` bounds them by the keys offered.
* The parser ignores the two unused bits of the flag byte, so an accepted packet is one the builder makes exactly if
  they are clear (`PacketTheorems.AcceptedIsBuilt`, and `PacketTheorems.UnusedBitIsAccepted` for packets that are not).
* A path named like a property that every object inherits does not survive the path dictionary
  (`CompactDeltaTheorems.BatchRoundTrip` gives the exact condition).
* Repeating an update to the source registry is not always a no-op: if it lost a conflict to a later record the first
  time, it wins the second time (`SourceRegistryTheorems.RepeatIsNoop`, `SourceRegistryTheorems.LoserWinsWhenRepeated`).
* A reload request between the end of the drain loop and the clearing of its promise is lost
  (`ConfigReloadTheorems.RequestInTheGapIsLost`, `ConfigReloadTheorems.RequestIsHonoured`).

## Model

| member | source | states |
|---|---|---|
| SendLoopSafety.EveryRunIsSafe | src/domain/delta-batcher.ts:111-195 | In every interleaving of producers, timers, retries and send results: at most one batch in flight and one retry armed, never both; the buffer stays within 1000 and a batch within 50; successful sends are in arrival order without repetition; while running, accepted = sent + counted as dropped + buffered |
| SendLoopSafety.NothingStartsAfterStop | src/app/connection/lifecycle-ops.ts:212-237 | After stop() no delta is accepted and no batch starts, whatever callbacks are still due |
| SendLoopAccounting.ExactAccounting | src/domain/delta-batcher.ts:181-183 | Over one lifetime every accepted delta is exactly one of sent, discarded or buffered if and only if no send succeeded whose flight an overflow hit |
| SendLoopAccounting.OverlapRunIsNotAccounted | src/app/connection/process-delta.ts:97-108 | A concrete run of 1001 deltas in which the overflow and the success splice the same prefix |
| SendLoopEffects.FirstFailureIsRetried | src/domain/delta-batcher.ts:124-139 | The first failure of a batch leaves buffer, counters and history as they were and leaves exactly one retry armed, for that batch size |
| SendLoopEffects.SecondFailureIsDropped | src/domain/delta-batcher.ts:141-147 | The second failure drops exactly that batch size from the head, counts it once, and arms nothing |
| SendLoopEffects.DropsAreCaused | src/domain/delta-batcher.ts:124-153 | Over every run short of a stop, the drop counters grow by 500 for each delta that finds 1000 buffered, by the batch for each second failure, and for no other reason |
| SendLoopEffects.EveryFirstFailureIsRetried | src/domain/delta-batcher.ts:111-139 | Over every run short of a stop, first failures = retries that fired + retries still armed |
| SendLoopEffects.SuccessIsDelivered | src/domain/delta-batcher.ts:176-194 | A successful send takes its batch size from the head, is logged, and chains a flush if something is left |
| SendLoopEffects.TimerSends | src/domain/delta-batcher.ts:69-90 | The flush timer and a chained flush send the oldest min(buffered, cap) deltas as a first attempt, if and only if nothing is under way and the link is up |
| SendLoopEffects.RetrySends | src/domain/delta-batcher.ts:111-121 | A retry that fires sends the oldest min(its size, buffered, cap) deltas as the second attempt, if the link is up |
| SendLoopEffects.EnqueueTakes | src/app/connection/process-delta.ts:151-180 | A delta is taken if and only if the link is ready and not subscribing; at 1000 the oldest 500 make room; it goes to the tail; a send starts if and only if nothing is under way and the batch is full or the timer has fired |
| SendLoopEffects.StopClears | src/app/connection/lifecycle-ops.ts:212-237 | A stop empties the buffer, zeroes the counters and disarms every timer; a send under way stays |
| SendLoopEffects.CapFits | src/foundation/constants.ts:167-175 | The batch cap is the largest number of average deltas that fit into 1190 bytes, between 1 and 50 |
| SendLoopEffects.AverageMoves | src/foundation/constants.ts:182-188 | Each packet moves the average a fifth of the way to its sample, taken between 1 and 1400 |
| SendLoopDrain.SilentStep | src/domain/delta-batcher.ts:111-195 | With producers silent and the link ready, no event raises the rank built from buffer length and retries left, and each one that moves anything lowers it |
| SendLoopDrain.NeverStuck | src/domain/delta-batcher.ts:69-90 | A non-empty buffer always has a callback due that moves it on |
| SendLoopDrain.SilentRunDrains | src/domain/delta-batcher.ts:124-195 | Every silent run makes at most four moves per buffered delta, and has drained when it has made as many as its rank |
| SendLoopDrain.DriveEmpties | src/domain/delta-batcher.ts:124-195 | For every sequence of send outcomes, serving what is due empties the buffer |
| SendLoopService.DeltaSender.FlushDeltaBatch | src/domain/delta-batcher.ts:155-181 | The flush up to its await takes exactly the specified step |
| SendLoopService.DeltaSender.OnSendOk | src/domain/delta-batcher.ts:181-195 | The continuation after a successful send: splice, clear flags, chain the next flush |
| SendLoopService.DeltaSender.OnSendError | src/domain/delta-batcher.ts:181-195 | The continuation after a failed send: the flight ends, the failure is handled, the next flush is chained |
| SendLoopService.DeltaSender.HandleBatchSendFailure | src/domain/delta-batcher.ts:124-153 | A first failure leaves the buffer and the counters and arms one back-off with the same batch size, unless one is armed or the link is stopped; a second one drops the batch size from the head and counts it |
| SendLoopService.DeltaSender.OnRetryTimer | src/domain/delta-batcher.ts:111-121 | The back-off timer clears its handle and flushes with its own batch size and count |
| SendLoopService.DeltaSender.OnDeltaTimer | src/domain/delta-batcher.ts:69-90 | The flush timer sets the flag, flushes a non-empty buffer and re-arms |
| SendLoopService.DeltaSender.OnImmediate | src/domain/delta-batcher.ts:184-195 | The chained flush after a settled send |
| SendLoopService.DeltaSender.UpdateSmartBatch | src/transport/pipeline/reliable-client/delta-sender.ts:144-152 | After a packet, the rolling average of bytes per delta and the batch cap derived from it |
| SendLoopService.DeltaSender.OnDelta | src/app/connection/process-delta.ts:151-180 | A delta that was not suppressed: gates, overflow, append, flush when due; all invariants of the loop kept |
| DeltaIntake.ProcessDelta | src/app/connection/process-delta.ts:151-180 | Both objects together: a closed gate or a delta with nothing left changes nothing; a duplicate within the window reaches no buffer; any other delta is remembered and takes the producer's step |
| SendLoopService.DeltaSender.MakeRoom | src/app/connection/process-delta.ts:97-108 | At the cap the oldest half is discarded and counted |
| SendLoopService.DeltaSender.OnStop | src/app/connection/lifecycle-ops.ts:212-237 | Stopping clears the buffer, the flags and the armed timers |
| JsonValue.ReprIdentifiesValue | src/codec/value-dedup.ts:88-99 | On values that JSON does not alter, stableRepr agrees if and only if the values are equal |
| JsonValue.ReprsAgreeExactly | src/codec/value-dedup.ts:88-99 | For all values: stableRepr agrees if and only if the values are equal once every nested undefined and non-finite item reads null and every undefined field is gone |
| JsonValue.NoLookAlikeExactly | src/codec/value-dedup.ts:88-99 | stableRepr tells a value from every other one if and only if it is null, undefined or non-finite itself, or is built from arrays over booleans, finite numbers and strings alone |
| JsonValue.NestedNaNLooksLikeNull | src/codec/value-dedup.ts:74-99 | Below the top level NaN and null print alike, against the documentation |
| DedupWire.WireExactly | src/codec/value-dedup.ts:111-146 | In every run of deltas over the values that JavaScript has, the wire deltas have the shape of the deltas; an entry goes out as the sentinel if and only if the value last given for its context and path is not undefined, prints the same, and fewer than 10000 others were given values since; every other entry goes out unchanged |
| DedupWire.PlacesAgreeExactly | src/codec/value-dedup.ts:42-46 | Without "\0" in them, a context and a path share their cache key with others if and only if the paths are equal and the contexts too, an absent or empty one counting as "*" |
| LruHistory.HeldExactly | src/codec/value-dedup.ts:54-62 | A least-recently-written map holds a key, with its last value, if and only if fewer other keys than the cap were written since |
| ValueDedup.EntryLockstep | src/codec/value-dedup.ts:111-146 | From equal caches one entry returns printing the same if and only if it is not sentinel-shaped or repeats the cached value; if and only if so, the caches are equal afterwards |
| ValueDedup.LockstepExactly | src/codec/value-dedup.ts:201-249 | For every sequence of deltas delivered in order from empty caches: no update or entry is lost and every value prints like the original, even if cache keys collide, if and only if whatever is sentinel-shaped on the way repeats the value cached then; the caches are then equal, order and evictions included, within the cap |
| ValueDedup.Lockstep | src/codec/value-dedup.ts:201-249 | So for every sequence of deltas without sentinel-shaped values |
| ValueDedup.RestoredUpToJson | src/codec/value-dedup.ts:201-249 | For every sequence without sentinel-shaped values, whatever is inside them: the receiver hands on as many deltas, each equal to the sender's up to what JSON forgets |
| ValueDedup.PairRestored | src/codec/value-dedup.ts:111-146 | Two values in a row on one path arrive as sent, but that the second is replaced by the first if and only if they print alike |
| ValueDedup.RestoredAfterAnything | src/codec/value-dedup.ts:201-249 | A value arrives unharmed after every other one if and only if no other value prints like it |
| ValueDedup.ExactRestoration | src/codec/value-dedup.ts:201-249 | When no value has an undefined or non-finite part, the receiver gets exactly the sender's deltas, over every sequence |
| ValueDedup.SentinelShapedValue | src/codec/value-dedup.ts:111-146 | For every cache: a sentinel-shaped value is dropped if nothing is cached and arrives as the cached value otherwise; the caches stay equal if and only if the cached value prints like it |
| ValueDedup.SentinelShapedValueIsDropped | src/codec/value-dedup.ts:64-72 | From empty caches, a run of one value that looks like the sentinel: it is lost |
| ValueDedup.SentinelBringsBackTheOlder | src/codec/value-dedup.ts:64-72 | From empty caches, any value and then a sentinel-shaped one on its path: the second arrives as the first |
| ValueDedup.NestedNaNIsRestoredAsNull | src/codec/value-dedup.ts:88-99 | From empty caches, an object holding null and then one holding NaN in its place: the second arrives as the first |
| ValueDedupService.DedupState.Remember | src/codec/value-dedup.ts:54-62 | The LRU write: re-insertion, and eviction of the oldest at the cap |
| ValueDedupService.DedupState.Dedup | src/codec/value-dedup.ts:111-146 | The sender's loops compute the specified wire delta and cache |
| ValueDedupService.DedupState.Undedup | src/codec/value-dedup.ts:201-249 | The receiver's loops compute the specified delta and cache |
| ValueDedupService.Carry | src/codec/value-dedup.ts:111-249 | One delta through the sender's and the receiver's object with equal caches: the result prints like the delta, entry by entry, if and only if whatever is sentinel-shaped in it repeats the value cached then; the caches then stay equal |
| Crc.ShiftDivides | src/codec/packet/constants.ts:126-132 | The bitwise register computes the remainder of polynomial division by x^16+x^12+x^5+1 |
| Crc.BurstIsNoticed | src/codec/packet/constants.ts:126-132 | Two messages that agree outside a window of sixteen bits share a checksum only if equal |
| CrcTable.BuildTable | src/codec/packet/constants.ts:109-119 | The unmasked 32-bit inner loop fills the table with the byte times x^8, reduced |
| CrcTable.Crc16 | src/codec/packet/constants.ts:126-132 | The table-driven loop returns the remainder of division, for every byte string |
| CrcTable.AdjacentBytesAreNoticed | src/codec/packet/constants.ts:126-132 | Any change confined to two adjacent bytes changes the checksum |
| PacketLayout.BuiltBytes | src/codec/packet/builder.ts:295-403 | Every built packet byte by byte: "SK", 3, type code, flag weights, sequence, length and checksum with the high byte first, the payload, and for all types but data and metadata (and for these too when headers are authenticated) the tag over header, payload and eight bytes of a bound epoch |
| PacketLayout.BuildFailsExactly | src/codec/packet/builder.ts:295-364 | Building fails if and only if the version is another one, a tag lacks a key, or the length does not fit, in that order |
| PacketLayout.FaultsAreFound | src/codec/packet/parser.ts:24-83 | A packet malformed in size, magic, version, type, checksum or length is refused for its first fault, and every other one is read |
| PacketLayout.AuthenticatedExactly | src/codec/packet/parser.ts:124-289 | A well-formed packet that needs no tag is accepted with its whole body; any other is refused for the first thing missing, else accepted if and only if its tag fits |
| PacketLayout.AcceptedFields | src/codec/packet/parser.ts:24-57 | What an accepted packet is read as, from its type and flag bits to its sequence number |
| PacketTheorems.RoundTrip | src/codec/packet/parser.ts:124-169 | Every packet that can be built, under agreeing settings, parses to its type, flags, sequence modulo 2^32 and untagged payload |
| PacketTheorems.HelloIsUnderstood | src/codec/packet/parser.ts:256-289 | Every HELLO that can be built parses, with its payload, whatever the two sides know of each other's epochs |
| PacketTheorems.EpochDisagreement | src/codec/packet/parser.ts:256-289 | When no epoch is bound though the receiver insists, or one is bound and the receiver knows none, the packet is refused with the error for that disagreement |
| PacketTheorems.DifferentEpochs | src/codec/packet/parser.ts:215-289 | When a packet is bound to one epoch and the receiver expects another, it is accepted if and only if both give the same tag, and else refused as not authentic; the HMAC inputs are the same if and only if the epochs agree modulo 2^64 |
| PacketTheorems.StripTagExactly | src/codec/packet/parser.ts:215-242 | A tagged body is accepted with a payload if and only if it is that payload followed by its tag |
| PacketTheorems.MacInputInjective | src/codec/crypto.ts:388-423 | The bytes fed to the HMAC coincide if and only if type, flags, sequence, payload and epoch modulo 2^64 do |
| PacketTheorems.AcceptedShape | src/codec/packet/parser.ts:24-83 | Every accepted packet is the header of its parsed fields, but for the two unused bits of the flag byte, then its own checksum and a body of the announced length |
| PacketTheorems.AcceptedIsBuilt | src/codec/packet/builder.ts:295-403 | An accepted tagged packet with the builder's flags is byte for byte what the builder makes of the parsed fields, if and only if the two unused bits of its flag byte are clear |
| PacketTheorems.UnusedBitIsAccepted | src/codec/packet/parser.ts:124-169 | For every tagged packet that can be built: the one that sets flag bit 6 as well, with tag and checksum to match, is accepted to the same fields, and the builder does not make it |
| PacketTheorems.CorruptedHeaderIsRejected | src/codec/packet/parser.ts:68-83 | Changing up to two adjacent bytes of the thirteen covered ones turns an accepted packet into a rejected one |
| PacketTheorems.NakRoundTrip | src/codec/packet/builder.ts:206-215 | A NAK payload decodes to its sequence numbers modulo 2^32 in order |
| PacketTheorems.NakPayloadRoundTrip | src/codec/packet/parser.ts:341-350 | Decoding then encoding returns every payload of whole words |
| PacketTheorems.AckRoundTrip | src/codec/packet/parser.ts:323-334 | An ACK payload decodes to its number and optional window modulo 2^32 |
| PacketService.PacketBuilder.Build | src/codec/packet/builder.ts:295-364 | Writing the header in place, tagging over it and sealing it yields the specified packet or error |
| PacketService.PacketBuilder.BuildData | src/codec/packet/builder.ts:121-133 | A data packet is built with the next data number and takes it; a refused one takes none; metadata numbers stay |
| PacketService.PacketBuilder.BuildMetadata | src/codec/packet/builder.ts:145-159 | Metadata draws from its own counter and leaves the data counter alone |
| PacketService.PacketBuilder.BuildAck | src/codec/packet/builder.ts:188-199 | An ACK carries the number and the optional window, and takes no sequence number |
| PacketService.PacketBuilder.BuildNak | src/codec/packet/builder.ts:206-215 | A NAK carries the missing numbers, and takes no sequence number |
| PacketNumbering.NumbersAreConsecutive | src/codec/packet/builder.ts:121-159 | However data, metadata and control packets interleave and whichever are refused, the receiver reads from the k-th data packet the initial number plus k modulo 2^32, and likewise from the metadata packets; epoch settings need to agree only where there are tags |
| PacketService.ParseNakPayload | src/codec/packet/parser.ts:341-350 | The reading loop returns the words of the payload, or an error if it is not whole words |
| ManagerProgress.StartBringsAllUp | src/app/connection-manager/start.ts:126-271 | A start that nothing interrupts and none of whose instances fails ends with exactly its connections registered, each under its identifier and ready, whatever older starts are still under way |
| ManagerProgress.FailedStartTakesAllDown | src/app/connection-manager/start.ts:254-266 | Once one of its instances has failed, a start that nothing interrupts ends with nothing registered and nothing running |
| ManagerProgress.SomethingIsDue | src/app/connection-manager/start.ts:145-210 | While a start is under way, a completion is due or a start can go on |
| ManagerProgress.EventsAreProgress | src/app/connection-manager/start.ts:145-271 | Every completion and every resumption lowers a rank, so starts come to their ends |
| ManagerProgress.StartLaunches | src/app/connection-manager/start.ts:126-210 | A start stops what is registered, registers one new instance for each connection and nothing else, and starts the servers among them only |
| ManagerProgress.ServersDone | src/app/connection-manager/start.ts:190-210 | The newest start whose servers have settled starts all its clients and nothing else; a superseded one starts nothing |
| ManagerProgress.StartEnds | src/app/connection-manager/start.ts:245-271 | Superseded, a start stops what it owns; failed, it takes everything down; else it leaves everything as it is |
| ManagerProgress.StopTakesDown | src/app/connection-manager.ts:120-127 | A stop, or a start with options that are rejected, stops every registered instance and empties the registry |
| ManagerSafety.EveryRunIsConsistent | src/app/connection-manager/start.ts:126-271 | For every overlap of starts, stops and late completions: what runs is registered and belongs to the newest uncancelled start; with no start suspended, exactly the registered instances run |
| ManagerSafety.ClientsStartAfterServers | src/app/connection-manager/start.ts:190-210 | A client begins to start only when its own, not superseded start resumes with all its servers settled |
| ManagerService.GenerateInstanceId | src/app/connection-manager/start.ts:44-50 | The suffix search ends with the slug or its first free suffixed form |
| ManagerService.AssignIds | src/app/connection-manager/start.ts:126-142 | Every connection of a start gets an identifier of its own |
| ManagerService.ConnectionManager.OnStart | src/app/connection-manager/start.ts:229-271 | A start call up to its first await |
| ManagerService.ConnectionManager.OnResume | src/app/connection-manager/start.ts:190-210 | A suspended start resumes: superseded it tears down what it owns, else it starts its clients or concludes |
| ManagerService.ConnectionManager.OnSettle | src/app/connection-manager/start.ts:145-162 | A start promise settles, also after its instance was stopped |
| ManagerService.ConnectionManager.OnStop | src/app/connection-manager.ts:120-127 | Stopping bumps the generation, stops every registered instance and empties the registry |
| DedupeKey.KeyIsRead | src/app/connection/process-delta.ts:28-61 | A parser recovers everything a key was made from |
| DedupeKey.KeysAgreeExactly | src/app/connection/process-delta.ts:28-61 | Two deltas share a key if and only if they print the same context, number of updates, $source, source object, timestamp, number of values, paths and values, in order |
| DedupeKey.BuildOutboundDedupeKey | src/app/connection/process-delta.ts:28-61 | The loop that pushes parts and joins them builds that key |
| SuppressionWindow.SameDecisions | src/app/connection/build-context.ts:216-224 | Under a clock that never goes back, every offer of a run gets the answer of an unbounded history if at no moment more than 5000 keys have been accepted within the window |
| SuppressionWindow.RightAnswersExactly | src/app/connection/process-delta.ts:83-94 | At every moment of a run an offer of any key would get the answer of the unbounded history, if and only if at no moment more than 5000 keys have been accepted within the window |
| DuplicateSuppression.AlwaysBounded | src/app/connection/build-context.ts:216-224 | The map holds at most 5000 entries after every call |
| SuppressionWindow.WindowKeptExactly | src/app/connection/process-delta.ts:83-94 | Under a clock that never goes back: equal keys get through only when more than 1500 ms apart, at every moment of a run and for every key that might be offered then, if and only if at no moment more than 5000 keys have been accepted within the window |
| SuppressionWindow.FewKeysOffered | src/app/connection/process-delta.ts:83-94 | That holds in every run that never sees more than 5000 different keys offered within one window |
| SuppressionWindow.FloodBreaksTheWindow | src/app/connection/build-context.ts:216-224 | For any 5001 different keys offered at one moment, a repeat of the first one is let through again, whenever it comes |
| DuplicateSuppression.OutboundDedupe.SuppressDuplicate | src/app/connection/process-delta.ts:83-94 | The method answers and updates the map as specified, and suppresses a delta only if one that prints the same in every field was let through within the last 1500 ms |
| DuplicateSuppression.OutboundDedupe.CleanupDedupeMap | src/app/connection/build-context.ts:216-224 | The two loops remove the expired keys, then the oldest above the cap |
| Throttle.DeltaIsItsOffers | src/codec/delta-sanitizer/throttle.ts:149-176 | Throttling a delta acts on the record as offering its ruled values one by one |
| Throttle.EntriesKeptExactly | src/codec/delta-sanitizer/throttle.ts:101-139 | An update keeps every entry without a rule and exactly the forwarded others |
| Throttle.DeltaKeepsForwarded | src/codec/delta-sanitizer/throttle.ts:149-176 | A throttled delta carries exactly the forwarded values, in order |
| ThrottleSpacing.DeadbandTracksValue | src/codec/delta-sanitizer/throttle.ts:48-69 | Under a deadband alone the last forwarded number is within the deadband of the last offered one, evictions or not |
| ThrottleSpacing.RecordIsOwn | src/codec/delta-sanitizer/throttle.ts:101-139 | A context, source and path share their record with no other, if and only if none of the three holds a space and the context is neither absent nor the text "undefined" |
| ThrottleSpacing.SpacelessRecordIsOwn | src/codec/delta-sanitizer/throttle.ts:101-139 | The same among those whose context and source hold no space: the path may then hold spaces |
| ThrottleRuns.OutputExactly | src/codec/delta-sanitizer/throttle.ts:48-69 | In every run every ruled value comes out, in order, unless the value that came out last under its key is too recent for the minimum interval or, both being numbers, too close for the deadband, and fewer than 10000 other keys came out since; then it does not |
| ThrottleRuns.FreeValuesPass | src/codec/delta-sanitizer/throttle.ts:101-176 | Values without a rule and updates without values come out of every run as they went in |
| ThrottleRuns.RunKeepsApart | src/codec/delta-sanitizer/throttle.ts:48-92 | In every run of throttled deltas, consecutive values of one context, source and path with a record of its own come out the minimum interval and the deadband apart, if fewer than 10000 other keys come out between them |
| ThrottleRuns.RunKeepsIntervals | src/codec/delta-sanitizer/throttle.ts:48-92 | Under a clock that never goes back, any two such values are the minimum interval apart, whoever shares their record |
| ThrottleRuns.DeadbandKeptExactly | src/codec/delta-sanitizer/throttle.ts:48-139 | In every run under every rule with a given deadband the consecutive numbers of a context, source and path come out that far apart, if and only if it has a record of its own |
| ThrottleRuns.DeadbandComparesOthers | src/codec/delta-sanitizer/throttle.ts:48-92 | For every deadband and every two different contexts, sources and paths that share a record, a run in which a value comes out and is repeated, one after the other on its own path, because one of the other came between |
| ThrottleService.PathThrottle.RecordSentValue | src/codec/delta-sanitizer/throttle.ts:76-92 | The LRU write of what was sent |
| ThrottleService.PathThrottle.Throttle | src/codec/delta-sanitizer/throttle.ts:149-176 | The nested loops produce the specified delta and record |
| CircularHistory.LaidPush | src/foundation/circular-buffer.ts:23-29 | Overwriting the cell under the index is one push onto the window, wrapped or not |
| CircularHistory.CircularBuffer.Push | src/foundation/circular-buffer.ts:23-29 | A push appends to the history that the cells stand for |
| CircularHistory.CircularBuffer.ToArray | src/foundation/circular-buffer.ts:31-36 | The array is the last min(n, size) pushes, oldest first; no unset cell is ever read |
| CircularHistory.CircularBuffer.Length | src/foundation/circular-buffer.ts:38-40 | The length is min(n, size) |
| CircularHistory.Create | src/foundation/circular-buffer.ts:13-21 | A size that is not positive is refused |
| BondingProbes.EveryProbeAddsUp | src/transport/bonding.ts:223-259 | In every run, on each link, sent = answered + expired + pending + dropped by a stop, and no probe has two outcomes or an outcome while pending |
| BondingProbes.PendingAfterCheck | src/transport/bonding-health.ts:150-162 | After a check a probe is pending if and only if it is new or within the timeout |
| BondingProbes.MeasuredLoss | src/transport/bonding-health.ts:169-183 | Up to a stop, the loss after a measurement is the failed fraction of the last ten outcomes, and 1 while there is none |
| BondingProbes.EveryCheckReportsLoss | src/transport/bonding.ts:203-259 | The same after every health check of every run |
| BondingEffects.ChecksDecideExactly | src/transport/bonding-health.ts:308-361 | On the links as measured in the check: it leaves the primary if and only if the backup is not down and the primary is down or, 5000 ms or more after it became active, its RTT or its loss is above the threshold; it returns if and only if the delay is over, the primary is not down, and RTT and loss are below 0.8 and 0.5 of the thresholds; nothing but statuses and the time of the switch changes |
| BondingEffects.MeasureMarksDown | src/transport/bonding.ts:223-297 | A measurement sends one probe and marks the link down if and only if more than three were sent and the last answer is older than the timeout; a closed link is left alone |
| BondingEffects.QualityWeighs | src/transport/bonding-health.ts:186-197 | The quality is 60 points for what is not lost and 40 for the speed, rounded |
| BondingEffects.AnswerSettles | src/transport/bonding.ts:305-355 | An answer to a pending probe settles it, moves the RTT a fifth of the way to its sample or sets it the first time, and brings back a link that was down; any other changes nothing |
| BondingEffects.SocketsFailAndRecover | src/transport/bonding.ts:391-439 | A socket error marks down its own link only and arms one recovery unless stopped; an armed recovery ends in standby, in binding, or down |
| BondingEffects.StartOpens | src/transport/bonding.ts:145-174 | Initialization puts each link it opens on standby, then makes the primary active and starts the checks, touching nothing else |
| BondingEffects.ForceSwitches | src/transport/bonding.ts:644-650 | A forced switch goes to the other link whatever its state; a primary that is down stays down |
| BondingEffects.StopCloses | src/transport/bonding.ts:655-679 | A stop ends the checks, closes both links and forgets what is pending; the active link stays the same |
| BondingSafety.AtMostOneActive | src/transport/bonding.ts:145-174 | Throughout a run at most one link is ACTIVE and it is the active link, if and only if the primary is the active link whenever initialization completes |
| BondingSafety.ForcedSwitchDuringStart | src/transport/bonding.ts:644-650 | A forced switch during initialization breaks it |
| BondingSafety.RestartOnBackup | src/transport/bonding.ts:655-679 | So does a stop and a second initialization while the backup is the active link, however it became so |
| BondingSafety.SwitchesAreSpaced | src/transport/bonding-health.ts:308-361 | In every run, forced switches or not: switches alternate, each unforced failback waits failbackDelay, each soft failover 5000 ms |
| BondingSafety.ConsecutiveFailovers | src/transport/bonding-health.ts:308-361 | Two failovers around an unforced failback are failbackDelay apart, 5000 ms more if the second is soft |
| BondingSafety.FailoversAreRare | src/transport/bonding-health.ts:339-349 | Without forced failbacks, failovers within a window W number at most 1 + W / failbackDelay |
| BondingSafety.FailoversAreEven | src/transport/bonding.ts:479-521 | The failovers are exactly the switches at even places |
| BondingService.LinkState.ExpirePendingHeartbeats | src/transport/bonding-health.ts:150-162 | The loop deletes the late probes and pushes one failed sample each, in order |
| BondingService.LinkState.ComputeLossRatio | src/transport/bonding-health.ts:169-183 | The counting loop returns the specified ratio |
| BondingService.LinkState.MeasureLinkHealth | src/transport/bonding.ts:223-297 | One measurement: send, expire, update, mark down |
| BondingService.LinkState.HandleHeartbeatResponse | src/transport/bonding.ts:305-355 | One answer: unknown numbers are ignored, known ones sampled once, a link that was down recovers |
| BondingService.BondingManager.CheckHealth | src/transport/bonding.ts:203-214 | One health check over both links: it switches exactly when the links as measured call for it; a switch leaves the new link alone active; a primary that is down while the backup is not leaves the backup active; right after a failback nothing calls for a failover, however late one asks; switch spacing, probe accounts and the single active link are kept |
| BondingService.BondingManager.SwitchToBackup | src/transport/bonding.ts:479-498 | The failover's effect on statuses and times |
| BondingService.BondingManager.SwitchToPrimary | src/transport/bonding.ts:503-521 | The failback's effect on statuses and times |
| BondingService.BondingManager.FailoverIsDue | src/transport/bonding-health.ts:308-333 | The early returns decide as specified |
| BondingService.BondingManager.FailbackIsDue | src/transport/bonding-health.ts:339-361 | The early returns decide as specified |
| BondingService.BondingManager.HeartbeatArrived | src/transport/bonding.ts:305-331 | An answer on either link |
| BondingService.BondingManager.ForceFailover | src/transport/bonding.ts:644-650 | A forced switch goes to the other link |
| BondingService.BondingManager.CompleteInitialize | src/transport/bonding.ts:162-174 | The part of initialize() that makes the primary active and starts the checks; a single active link stays single if and only if the primary is the active one |
| BondingService.BondingManager.SocketFailed | src/transport/bonding.ts:391-439 | A socket error marks the link down and schedules one recovery unless stopped |
| BondingService.BondingManager.RecoveryTimerFires | src/transport/bonding-health.ts:38-74 | Recreating a socket: recovered, still binding, or broken |
| BondingService.BondingManager.StopAll | src/transport/bonding.ts:655-679 | Stopping closes both links, drops what is pending and starts new windows |
| CongestionEffects.AdjustsExactly | src/transport/congestion.ts:118-205 | An adjustment is made if and only if adjusting is on, there is a sample and the interval has passed; the timer is then the whole number nearest to it times 1.5, 0.95, 1.05, 0.98, 1.02 or 1 (by congestion, health and side of the nominal), moved by the cap at most and kept in the bounds |
| CongestionEffects.SamplesAverage | src/transport/congestion.ts:99-111 | A missing or negative sample changes nothing, the first sets its average, any other moves it by alpha of the way |
| CongestionEffects.ConstantSamples | src/transport/congestion.ts:99-111 | n equal samples shrink the distance of the average to them by the factor (1 - alpha)^n |
| CongestionTheorems.BoundsKept | src/transport/congestion.ts:199-201 | Rounding keeps every clamped timer in the bounds if and only if it does not push a bound itself outward |
| CongestionTheorems.EndsInRange | src/transport/congestion.ts:137-205 | With whole bounds every adjustment ends in them, wherever it starts |
| CongestionTheorems.RunEndsInRange | src/transport/congestion.ts:137-205 | So does every run with an adjustment and no override |
| CongestionTheorems.MovesWithinCap | src/transport/congestion.ts:190-201 | From inside the bounds an adjustment moves by at most the cap plus rounding |
| CongestionTheorems.StepTowardsNominal | src/transport/congestion.ts:158-188 | Away from severe congestion an adjustment never leaves the 5 per cent band, and outside it comes closer by at least one where 2 per cent round to something |
| CongestionTheorems.GentleRunConverges | src/transport/congestion.ts:99-205 | From any start, max - min + 2 adjustments on samples that are not severe bring the timer into the band around the clamped nominal, unless the configuration is of one of the two failing kinds |
| CongestionTheorems.GentleRunStays | src/transport/congestion.ts:99-205 | Once in the band such a run never leaves it |
| CongestionTheorems.ConvergesExactly | src/transport/congestion.ts:158-205 | With adjustment enabled, whole bounds from 0, a cap of at least 5 per cent and averaging weights between 0 and 1: every long gentle run from every start ends in the band, if and only if neither min < 25 and min < 0.95 n - 0.5, nor 1.05 n + 0.5 < min(25, max), where n is the clamped nominal |
| CongestionTheorems.StuckRunNeverArrives | src/transport/congestion.ts:175-205 | A configuration of either failing kind has a start and gentle runs of any number of adjustments that never enter the band |
| CongestionTheorems.From25NothingSticks | src/connection-config.ts:545-549 | A minimum of 25 or more is of neither kind, so none that the configuration check admits is |
| CongestionTheorems.AverageStaysBetween | src/transport/congestion.ts:99-111 | An average never leaves the range of its samples |
| CongestionTheorems.SevereRunReachesMax | src/transport/congestion.ts:161-199 | In every run whose loss samples are severe, each adjustment lengthens the timer by at least one up to its maximum, which it keeps |
| CongestionService.CongestionControl.UpdateMetrics | src/transport/congestion.ts:99-111 | The averages after a sample; missing, infinite and negative ones are ignored |
| CongestionService.CongestionControl.AdjustTimer | src/transport/congestion.ts:137-205 | The branches, the cap, the clamp and the rounding compute the specified timer; once adjusted it is whole and in the bounds, and away from severe congestion it does not leave the band |
| CompactWire.DeltaIsLaidOut | src/codec/compact-delta.ts:52-87 | A delta goes out as its context and one array of five for each update: source, $source, timestamp, pairs of path and value, pairs of meta, null where there is nothing |
| CompactWire.PathsAreNumbers | src/codec/path-dictionary.ts:121-130 | A path of the table goes out as its number, any other as it is, unless it names an inherited property |
| CompactWire.OnlyPathsAreCoded | src/codec/path-dictionary.ts:143-191 | With the dictionary every value keeps its place and only its path is looked up; meta is not |
| CompactWire.OtherPathsStay | src/codec/path-dictionary.ts:134-140 | On decoding, a number the table does not know and whatever is no number stay what they are |
| CompactWire.OnlyPairsAreRead | src/codec/compact-delta.ts:114-141 | Of a list exactly the arrays of two or more are read, as path and value |
| CompactWire.DecodedFields | src/codec/compact-delta.ts:143-164 | An update needs an array of five or more; fields of the wrong type count as absent |
| CompactWire.DecodedDelta | src/codec/compact-delta.ts:170-185 | A delta needs an array of two or more whose second is an array; a context that is no text counts as empty |
| CompactDeltaTheorems.DictionaryIsInvertible | src/codec/path-dictionary.ts:121-138 | Every ordinary path survives encoding and decoding if and only if no id is used twice |
| CompactDeltaTheorems.CompactRoundTrip | src/codec/compact-delta.ts:52-87 | The positional arrays alone return the normal form, an absent source staying absent |
| CompactDeltaTheorems.BatchRoundTrip | src/codec/compact-delta.ts:143-214 | A batch of well-formed deltas arrives as its normal forms, in order, if and only if the dictionary is off or no value stands under an inherited property's name |
| CompactDeltaTheorems.NormalIsIdempotent | src/codec/compact-delta.ts:52-87 | The normal form is a fixed point |
| CompactDeltaService.EncodeUpdateTuple | src/codec/compact-delta.ts:52-77 | The loops skip entries without a path and keep positions stable |
| CompactDeltaService.DecodeUpdateTuple | src/codec/compact-delta.ts:143-164 | Malformed tuples are refused, fields of the wrong type left out |
| CompactDeltaService.DecodeDelta | src/codec/compact-delta.ts:170-185 | Malformed deltas are refused, malformed updates skipped |
| CompactDeltaService.DecodeDeltaArray | src/codec/compact-delta.ts:206-214 | Entries that do not decode are skipped |
| CompactDeltaService.TransformAll | src/codec/path-dictionary.ts:143-191 | Filling the arrays by position transforms every path and keeps meta |
| SourceRegistryTheorems.ScanIsExact | src/domain/source-registry.ts:259-272 | On a map ordered by age the scan that stops early removes exactly the expired records |
| SourceRegistryTheorems.OverflowDropsOldest | src/domain/source-registry.ts:273-282 | What the cap drops is no younger than anything kept |
| SourceRegistryTheorems.RefreshAged | src/domain/source-registry.ts:401-420 | An upsert and a no-op both move the record to the tail, which keeps the order |
| SourceRegistryTheorems.EveryRunIsOrderedAndBounded | src/domain/source-registry.ts:370-447 | After every call of every run: ordered by lastSeenAt, at most 5000 records, insertions = size + evictions |
| SourceRegistryTheorems.ReadShowsTheLiving | src/domain/source-registry.ts:449-453 | Reading shows exactly the records seen within seven days |
| SourceRegistryTheorems.DeltaKeepsTheLiving | src/domain/source-registry.ts:428-447 | After a delta exactly the records seen within seven days are left of those after its updates |
| SourceRegistryTheorems.UpdateIsMerged | src/domain/source-registry.ts:343-426 | Field by field a missing value gives way and the incoming one wins unless it is older; provenance, raw data and times are as stated; conflicts count the fields that differ; no other record is touched |
| SourceRegistryTheorems.NoIdentityNoRecord | src/domain/source-registry.ts:370-380 | An update that names no source is counted and changes nothing |
| SourceRegistryTheorems.RepeatIsNoop | src/domain/source-registry.ts:343-413 | Of two upserts of one update the second is a no-op if and only if the first left its record in place and did not lose a conflict to a later one |
| SourceRegistryTheorems.LoserWinsWhenRepeated | src/domain/source-registry.ts:343-413 | A run for any two stamps: the older update loses its conflict when it comes and is stored when it is repeated |
| SourceRegistryTheorems.ThirdTimeIsNoop | src/domain/source-registry.ts:343-413 | Of three, the third is a no-op whatever the stamps, if and only if the second left its record in place |
| SourceRegistryTheorems.UpsertKeepsItsRecord | src/domain/source-registry.ts:259-282 | An upsert leaves its record in place, eviction in the same call included, unless the call itself lasts longer than seven days |
| SourceRegistryService.Registry.EvictStaleAndOverflow | src/domain/source-registry.ts:259-282 | Both loops, with one eviction counted per deletion |
| SourceRegistryService.Registry.UpsertSingleUpdate | src/domain/source-registry.ts:370-426 | One upsert: missing identity, no-op, merge, cap in mid-loop; order, cap and account kept |
| SourceRegistryService.Registry.UpsertFromDelta | src/domain/source-registry.ts:428-447 | All updates of a delta, then one eviction pass |
| SourceRegistryService.Registry.GetSize | src/domain/source-registry.ts:494-497 | Reading evicts first |
| ConfigReloadTheorems.PassesNeverOverlap | src/foundation/config-reload.ts:120-154 | However calls overlap at most one pass is under way, and passes never outnumber requests |
| ConfigReloadTheorems.EveryHeardRequestIsAnswered | src/foundation/config-reload.ts:120-154 | Unless stopped, every request the loop can hear is followed by the start of a pass, failures or not |
| ConfigReloadTheorems.RequestIsHonoured | src/foundation/config-reload.ts:141-153 | A request gets its pass once all has settled if and only if it does not fall between the loop's end and the clearing of its promise |
| ConfigReloadTheorems.RequestInTheGapIsLost | src/foundation/config-reload.ts:141-153 | A run in which such a request is lost |
| ConfigReloadTheorems.EveryApplicationIsAChange | src/foundation/config-reload.ts:90-111 | In every run, stopped or not, each successful application is of other content than the one before it |
| ConfigReloadTheorems.FailedApplicationIsRetried | src/foundation/config-reload.ts:90-146 | A failed application leaves its content pending: the pass asked for meanwhile applies it again |
| ConfigReloadTheorems.PassesEnd | src/foundation/config-reload.ts:57-112 | The next two completions end a pass that nobody asked to repeat |
| ConfigReloadTheorems.ReadDecides | src/foundation/config-reload.ts:57-103 | What was read is applied if and only if it could be read, is not what the hash stands for, and parses, an absent or empty file standing for the fallback; else the pass ends |
| ConfigReloadTheorems.ApplyDecides | src/foundation/config-reload.ts:103-146 | Success sets the hash unless stopped meanwhile, failure leaves it; then another pass starts if and only if it was asked for |
| ConfigReloadTheorems.RequestsStart | src/foundation/config-reload.ts:120-153 | A request starts a loop if none is in flight and else asks for another pass; a loop that ended is cleared |
| ConfigReloadService.ConfigHandler.RunLoad | src/foundation/config-reload.ts:120-153 | A call leaves a note for the loop in flight or starts one |
| ConfigReloadService.ConfigHandler.FileRead | src/foundation/config-reload.ts:57-105 | The branches between reading and applying |
| ConfigReloadService.ConfigHandler.ConfigProcessed | src/foundation/config-reload.ts:103-146 | The hash advances only on success and while running, then the pass ends |

## Left out

- Sockets, timers as system objects, file watching, HTTP routes, the web interface and metrics text: they appear only as events in any order.
- Encryption, compression, hashing and serialisation themselves; a hash used for comparison is replaced by what it hashes, so collisions of the merge hash and the content hash are not modelled.
- A stop followed by a restart of the same instance while a send is in flight: a send-loop run is one lifetime.
- Log lines, early-send and high-water counters, notifications and callbacks to metrics publishers.
- Floating-point rounding; negative zero is not told from zero.
- Value deduplication under packet loss: only in-order, lossless delivery restores values.
- Strings with unpaired surrogates in value deduplication; the dedupe key has no such restriction.
- Heartbeat sequence numbers from 2^32 on, where writing the probe fails, and the authentication of heartbeat answers: an answer is an event for a number.
- How a socket is bound during initialize(): its pieces are events that may interleave with everything else.
- The contents of the path table: distinctness of its ids is the assumption, with both directions proved.
- Record-shaped batches of deltas, and values that the serialiser itself would alter.
- Configuration schemas, key-strength checks, capture export and alert wording, which would only add case lists.
- Sequence tracking, retransmission and replay protection on the receiving side.
- SendLoopService.DeltaSender.OnDelta: starts after sanitising and duplicate suppression; `DeltaIntake.ProcessDelta` puts the suppression in front of it, and what the sanitiser leaves is its argument.
- DeltaIntake.ProcessDelta: live metadata extraction and the skipping of own data happen before it; counters and reports are left out.
- ManagerService.ConnectionManager.OnStart: parsing and validating the options has happened; the connections and whether they are acceptable are its argument.
- BondingService.LinkState.HandleHeartbeatResponse: the datagram has been parsed and its authentication checked; the probe number is its argument.
- BondingService.BondingManager.HeartbeatArrived: the same.
- SourceRegistryService.Registry.UpsertSingleUpdate: the update arrives with its identity and key computed, and two contents are compared themselves where the code compares their hashes.
- SourceRegistryService.Registry.UpsertFromDelta: the same; updates that are not objects have been skipped.
