# Dafny model of NSR

NSR is a traceroute engine split over processes, with a JSON-RPC plugin host. This project models
the parts whose behaviour is a matter of whole runs, and proves what they promise:

- **Probe pipeline.** `RingSteps` takes every index load, slot copy and index store of the shared
  memory rings as a step of its own and proves that any interleaving is a FIFO queue; `ShmRing` is
  the ring as code. `Schedule`, `Inflight` and `HopAliases` are the scheduler with its pacing, the
  in-flight table and the per-hop counters. `Pipeline` interleaves logic engine, gatekeeper, clock
  and an arbitrary network, including gatekeeper crashes; `PipelineResults` holds conservation per
  TTL, at most one observation per probe, and the timing bound on sequence reuse.
- **Plugin host.** `JsonText`, `JsonEncode`, `JsonDecode`, `JsonLayout`, `JsonRoundTrip` and
  `JsonRecover` are the encoder, the decoder and their round trips, also on texts with blanks.
  `Framing` and `RpcChannel` cut bytes into lines and back. `KeyQueue`, `PluginWire`, `PluginLedger`, `PluginSteps` and `PluginHost` are the request
  protocol: `PluginHost.Entry` works on real bytes through the channel, the encoder and the decoder,
  and each of its entry points is shown to be a run of the steps in `PluginSteps`. `PluginRuns` holds
  what is true of every run, `PluginReplies` what a message does by the value it spells, and
  `PluginTorn` the run in which reply safety fails.
- **Topology store.** `Topology` and `TopologyUpdate` are the graph update as a function,
  `TopologyStore` the in-place code, and `TopologyEdges` and `TopologyFlags` say what a snapshot
  does on addresses: edges, TTLs and the destination flag.
- **Fast structures.** `GeoCache` (linear probing, a map), `BucketRing` (per-minute buckets, a fold
  over history), `Ipv6Chain` (two walkers, one specification), `Checksum` (RFC 1071).

`Bits`, `Texts` and `Options` are shared helpers. A class has the fields of the C structure it models
and a specification on values; its methods are proved to compute that specification.

Assumptions, as the code makes them: one producer and one consumer per ring, counters that do not
wrap, one monotone clock, texts without NUL bytes, and, for the safety of replies, a plugin that
answers only ids it was sent. Everything outside (network, pipes, writes, clock readings, the
plugin) is an arbitrary argument or step.

Five promises do not hold as one might read them; each is stated with the condition under which it
does hold.

- A force_sync throws away bytes without regard to lines. If it stops inside a line, the rest can be
  taken for the reply to a later request (`PluginTorn.StaleReplyAccepted`). An accepted reply is stale
  exactly when its line was torn (`PluginRuns.RepliesMatch`), and a discard leaves no torn line exactly
  when it takes nothing or ends with a newline (`PluginWire.WholeAfter`).
- `nsr_json_obj_get` compares the raw bytes of a key. Asked for a key that needs escapes it passes the
  member with that key by (`JsonRecover.OwnKeyFinds`), and may stop at another one
  (`JsonRecover.WrongMember`).
- `nsr_json_parse_str` has no `\u` case, so a string with a control byte other than the five with
  short escapes does not survive; nor does one that is cut to the buffer
  (`JsonRecover.StringRoundTrip`).
- The GeoIP cache cuts keys to 47 bytes when storing but not when looking up, so longer keys are
  never found (`GeoCache.FindsWhatWasStored`). They take up slots, and can make a 47-byte key they are
  cut to be found though it was never stored (`GeoCache.TwinIsFound`). Exactly the keys of fewer than
  47 bytes are looked up as they should after every history (`GeoCache.ShortKeysAlwaysFound`).
- `nsr_checksum` starts from 0xffff and so returns 0, not 65535, when all words are zero
  (`Checksum.AgreesWithRfc1071`).

The comment at src/io/logic.c:101 calls the alias eviction least recently used; the code evicts the
least seen, and so does the model.

## Model

| member | source | states |
|---|---|---|
| `Bits.AndMaskIsMod` | include/nsr/shm_ring.h:50-57 | masking with a power of two minus one is the remainder, for every number and every power |
| `Bits.MaskedDistance` | include/nsr/shm_ring.h:53-54 | the 32-bit wrapped difference of two masked indices, masked, is the true number of items between them |
| `RingSteps.StepInv` | include/nsr/shm_ring.h:29-83 | every single load, slot copy and index store, of producer or consumer, keeps the ring invariant |
| `RingSteps.RunInv` | include/nsr/shm_ring.h:29-83 | the invariant holds in every state of every interleaved run |
| `RingSteps.FifoAtEveryState` | include/nsr/shm_ring.h:29-83 | in every state of every run, items accepted = items delivered followed by the ring's contents, and occupancy never exceeds the capacity (N-2 for the batch ring, 15 for the 16-slot ring) |
| `RingSteps.StepRefinesQueue` | include/nsr/shm_ring.h:47-83 | every step is a step of an unbounded FIFO queue: only the head store adds (the whole batch at once), only the tail store removes, everything else changes nothing |
| `RingSteps.NoTornRead` | include/nsr/shm_ring.h:56-58 | in no reachable state does the producer copy into a slot that the consumer is copying out of |
| `RingSteps.StaleIndexIsCautious` | include/nsr/shm_ring.h:48-54 | deciding with an outdated index of the other side never accepts a push without room nor a pop without items |
| `ShmRing.SharedRing.PushBatch` | include/nsr/shm_ring.h:47-62 | accepted exactly when the items and the queued ones fit in N-2; then the queue grows by the whole batch in order, otherwise nothing changes |
| `ShmRing.SharedRing.PopBatch` | include/nsr/shm_ring.h:68-83 | returns the oldest min(max, queued) items in order and leaves the rest queued |
| `ShmRing.SharedRing.LargePush` | include/nsr/shm_ring.h:29-36 | accepted exactly when fewer than 15 items are queued; appends one item |
| `ShmRing.SharedRing.LargePop` | include/nsr/shm_ring.h:38-45 | returns the oldest item, or nothing exactly when the queue is empty |
| `Schedule.SentClosedForm` | src/io/logic.c:232-244 | after k probes, TTL t in 1..30 has been sent (k + 30 - t) div 30 times and no other hop ever |
| `Schedule.SentIsBalanced` | src/io/logic.c:232-244 | after any number of probes the sent counts of TTLs 1..30 differ by at most one; other hops stay 0 |
| `Schedule.SeqReuseDistance` | src/io/logic.c:239-241 | two different probes with the same 16-bit sequence number are at least 65536 probes apart |
| `Schedule.Scheduler.StageProbe` | src/io/logic.c:233-243 | the k-th probe of a lifetime gets TTL 1 + k mod 30 and sequence k mod 65536, whatever the burst sizes were |
| `Schedule.Scheduler.StageBurst` | src/io/logic.c:227-244 | a burst of n stages the next n probes of that schedule, all stamped with the same time |
| `Schedule.Pacing.Adjust` | src/io/logic.c:161-195 | within 250 ms nothing changes; after that the totals over hops 1..63 are taken and the burst and loss average move by one AIMD step on the window, unless nothing was sent |
| `Schedule.BurstStaysInRange` | src/io/logic.c:48-53 | over every sequence of windows the burst stays in 1..64 |
| `Schedule.GapShrinks` | src/io/logic.c:182-183 | under total loss the distance of the loss average from 1 shrinks at least like 7/(7+3m) after m windows |
| `Schedule.TotalLossDrivesBurstToOne` | src/io/logic.c:182-194 | from any burst and any starting average, total loss for long enough (a bound computed from the average, plus 12 windows) brings the burst to exactly 1 |
| `Schedule.NoLossRaisesBurst` | src/io/logic.c:190-194 | while everything comes back and the average is below 10 %, every window adds one to the burst, up to 64 |
| `Schedule.MildLossKeepsBurst` | src/io/logic.c:185-194 | between 10 % and 35 % of loss the burst stays as it is |
| `Schedule.TotalCounts` | src/io/logic.c:166-170 | the totals count hops 1 to 63 and not hop 0 |
| `Schedule.IntegrityParts` | src/io/logic.c:61-64 | the integrity word is the TTL above the 16 bits of the sequence number |
| `Inflight.Table.Track` | src/io/gatekeeper.c:48-55 | the slot of the sequence number now holds this probe, active; all other slots are unchanged |
| `Inflight.Table.Find` | src/io/gatekeeper.c:57-67 | succeeds exactly when the slot is active with this very sequence number, returns that entry and frees it |
| `Inflight.Table.Drop` | src/io/gatekeeper.c:69-74 | frees the entry of this sequence number if it is held and touches nothing else |
| `Inflight.Table.ReapStale` | src/io/gatekeeper.c:77-88 | at most once a second; it frees exactly the active entries older than 5 s and keeps the others |
| `Inflight.ActiveUpdate` | src/io/gatekeeper.c:48-55 | overwriting a slot moves exactly the old holder out of, and the new one into, the bag of tracked probes |
| `Inflight.ReapSplits` | src/io/gatekeeper.c:77-88 | the bag of tracked probes before a sweep is the bag after it plus the probes reaped |
| `Pipeline.StepInv` | src/io/logic.c:219-266 | every step of logic, gatekeeper, clock, network or respawn keeps: schedule registers and counters, order of pending intents, table entries in their own slots, and every probe in exactly one place |
| `Pipeline.RunInv` | src/io/gatekeeper.c:265-393 | that invariant holds in every state of every interleaving |
| `PipelineResults.EveryProbeInOnePlace` | src/io/gatekeeper.c:265-393 | in every state of every run, each probe sent is in exactly one of: pending, in flight, observed, counted as received, dropped, reaped, overwritten, lost in a gatekeeper crash |
| `PipelineResults.AtMostOneObservation` | src/io/gatekeeper.c:57-67 | whatever replies the network duplicates or forges, no probe yields more than one observation |
| `PipelineResults.ReplyIsObserved` | src/io/gatekeeper.c:370-387 | in every state of every run, a reply that quotes a probe in flight becomes an observation with that probe's TTL, sequence number and kind, and the probe is no longer in flight |
| `PipelineResults.DropIsForgotten` | src/io/gatekeeper.c:288-297 | a probe in flight that could not be sent is no longer in flight after its turn |
| `PipelineResults.PerTtlConservation` | src/io/logic.c:232-266 | for each hop: sent = pending + in flight + observed + received + lost, hence recv <= sent, in every state of every run |
| `PipelineResults.ScheduleAtEveryState` | src/io/logic.c:227-251 | in every state of every run the next probe has sequence k mod 65536 and TTL 1 + k mod 30 and the sent counters are balanced |
| `PipelineResults.SlotIsFree` | src/io/gatekeeper.c:76-88 | with bursts at least 10 ms apart and intents tracked within 4.24 s, the slot about to be tracked is free |
| `PipelineResults.NeverOverwritten` | src/io/gatekeeper.c:265-272 | under those timing conditions no run ever overwrites an active in-flight entry (the 4 s of the design has 0.24 s to spare) |
| `HopAliases.ObserveCountsOne` | src/io/logic.c:77-113 | an observation raises primary count + alias counts + discarded counts by exactly one |
| `HopAliases.EvictionDiscardsMinimum` | src/io/logic.c:96-112 | counts are discarded exactly when a fourth alias arrives, and then one entry with the least count is replaced |
| `HopAliases.ReplayGood` | src/io/logic.c:77-135 | after every history: distinct addresses, at most three aliases, exact counts as long as nothing was evicted, never more than the true count afterwards |
| `HopAliases.HopConservation` | src/io/logic.c:77-135 | after every history: primary + aliases + discarded = observations, addresses pairwise distinct, the primary is the first address seen and its count is exact |
| `HopAliases.HopInfo.Update` | src/io/logic.c:115-131 | the arrays and counters hold exactly the replay of the extended history |
| `HopAliases.HopInfo.AddOrUpdate` | src/io/logic.c:77-113 | the in-place update of address, counters and alias array equals one observation step |
| `HopAliases.HopInfo.Minimum` | src/io/logic.c:101-109 | the scan finds the first alias with the least count |
| `Checksum.NsrChecksum` | src/io/tracer.c:5-17 | the byte loop returns the one's complement of the carry-folded word sum, an odd last byte padded, in either machine byte order |
| `Checksum.AccumulateIsResidue` | src/io/tracer.c:5-17 | the accumulator is never 0 and is congruent to the sum of the words modulo 65535 |
| `Checksum.AgreesWithRfc1071` | src/io/tracer.c:5-17 | equals the checksum of section 1 of RFC 1071 if and only if some word is non-zero (an all-zero text gives 0 instead of 65535); always equal modulo 65535 |
| `Checksum.ChecksumVerifies` | src/io/tracer.c:5-17 | writing the result into a zero word makes a second run return 0 |
| `Checksum.FieldVerifies` | src/io/tracer.c:5-17 | the same on bytes: storing it in a zeroed even-aligned two-byte field, in the machine's byte order, makes the data verify |
| `Checksum.ByteOrderIndependent` | src/io/tracer.c:5-17 | swapping the bytes of every word swaps the bytes of the result (section 2(B) of RFC 1071) |
| `Checksum.SameBytesOnEveryMachine` | src/io/tracer.c:5-17 | little- and big-endian machines compute byte-swapped checksums of the same data, and so store the same two bytes |
| `Checksum.FastIsNsrChecksum` | src/io/gatekeeper.c:91-97 | for all ids and sequence numbers the shortcut equals both the general routine and RFC 1071 on the words 0x0800, 0, id, seq |
| `Checksum.OddIsPadded` | src/io/tracer.c:10-14 | an odd last byte counts as if a zero byte followed it |
| `Checksum.WordOfBytes` | src/io/tracer.c:5-17 | two bytes are a word in the machine's byte order |
| `Ipv6Chain.TransportOffset` | plugins/sniffer/src/main.rs:347-374 | the loop computes the recursive walk over extension headers and stops inside the data |
| `Ipv6Chain.ParseOriginal` | src/io/gatekeeper.c:99-157 | computes the same walk on the packet cut at its end; on a quoted well-formed chain with an echo request it returns the echo's id and sequence if and only if the payload length in the header is at least that of chain and echo, and nothing otherwise |
| `Ipv6Chain.WalkEncoded` | plugins/sniffer/src/main.rs:347-374 | the walk of any well-formed chain (section 4 of RFC 8200, section 2.2 of RFC 4302) in front of any protocol yields that protocol right behind it |
| `Ipv6Chain.EncodedEchoIsFound` | src/io/gatekeeper.c:99-157 | any well-formed chain ending in an echo request yields the encoded id and sequence |
| `GeoCache.GeoHash` | plugins/geoip/geoip.c:33-39 | the accumulating loop with 32-bit wrap-around computes the specified hash, below 256 |
| `GeoCache.LookupReadsMap` | plugins/geoip/geoip.c:41-52 | probing a sound table from the hash gives what the map holds for the key, or nothing |
| `GeoCache.PlacedUpdatesMap` | plugins/geoip/geoip.c:54-70 | storing a key of at most 47 bytes keeps keys unique and probe paths filled, and updates the map (a new key is ignored when all 256 slots are taken) |
| `GeoCache.LongKeyNeverFound` | plugins/geoip/geoip.c:54-70 | a key of more than 47 bytes is cut when stored and is never found |
| `GeoCache.FindsWhatWasStored` | plugins/geoip/geoip.c:41-70 | in any table of short keys, sound or not, find returns the value just stored if and only if the key has at most 47 bytes and some slot was free or held it |
| `GeoCache.LookupAfterHistory` | plugins/geoip/geoip.c:41-70 | after every history of stores, long keys among them: a key that fits yields the value of its latest store that found room, unless a longer key was cut to it; a longer key is never found; stored keys stay short |
| `GeoCache.TwinIsFound` | plugins/geoip/geoip.c:41-70 | for every 47-byte key there is a longer key after whose store it is found, though it was never stored |
| `GeoCache.ShortKeysAlwaysFound` | plugins/geoip/geoip.c:41-70 | a key is looked up as it should be after every history of stores if and only if it has fewer than 47 bytes |
| `GeoCache.Cache.Find` | plugins/geoip/geoip.c:41-52 | the probing loop returns what the history of stores determines; while the slots represent a map, the map's value or nothing |
| `GeoCache.Cache.Store` | plugins/geoip/geoip.c:54-70 | any store extends the history the slots hold with the country and the provider, each cut to its field; of a key that fits, on slots that represent a map, it updates that map |
| `BucketRing.BucketsFoldHistory` | plugins/percentile/percentile.c:90-122 | over every chronological history, merging the newest buckets from any one on equals folding all samples of those minutes |
| `BucketRing.SinceIsAmongLast` | plugins/percentile/percentile.c:124-157 | folding the samples from a bucket on equals folding those whose minute is among the last k distinct sampled minutes |
| `BucketRing.WindowIsReference` | plugins/percentile/percentile.c:124-157 | the merge of the newest min(n, 60, buckets) buckets is the reference fold over the history |
| `BucketRing.Ring.FindBucket` | plugins/percentile/percentile.c:90-99 | finds the newest bucket exactly when it belongs to the sample's minute |
| `BucketRing.Ring.AddSample` | plugins/percentile/percentile.c:90-122 | adds the sample to the history the 60 slots represent, opening or reusing a slot as needed |
| `BucketRing.Ring.MergeNewest` | plugins/percentile/percentile.c:130-147 | the wrapping loop merges exactly the newest n buckets |
| `BucketRing.Ring.ComputeWindowStats` | plugins/percentile/percentile.c:124-157 | reports min, max and floor average over all history samples whose minute is among the last min(n, 60) sampled minutes; invalid when there are none |
| `BucketRing.ReportedAverage` | plugins/percentile/percentile.c:149-156 | min <= average <= max for every history and window |
| `BucketRing.WindowReport` | plugins/percentile/percentile.c:71-157 | written out on the list of round-trip times whose minute is among the last min(n, 60) distinct sampled minutes: the report is its smallest and largest element and its average rounded down, and is invalid exactly when it is empty |
| `Topology.UpsertStep` | src/state/topology.c:26-57 | an upsert keeps (address, target) pairs unique and every id's binding, changes no other node, and returns 0 only for an empty name or a new node in a full table |
| `Topology.UpsertAllKeeps` | src/state/topology.c:122-149 | the same over any list of upserts: bindings extend, ids are valid and of this target, untouched nodes keep everything |
| `Topology.Rerun` | src/state/topology.c:26-57 | repeating a list of upserts on its own result, even with other fields of the touched nodes changed, gives the same nodes and the same ids, also when the table filled part-way |
| `TopologyUpdate.UpdateKeepsGood` | src/state/topology.c:115-192 | a snapshot keeps: unique pairs, no more than 1024 nodes, edges duplicate-free, loop-free, between nodes of one target, at most the table size; bindings and edges only extend |
| `TopologyUpdate.AddAllAgain` | src/state/topology.c:59-84 | adding any prefix of the edges just added adds nothing, even when the edge table filled part-way |
| `TopologyUpdate.UpdateIsIdempotent` | src/state/topology.c:115-192 | applying a snapshot twice leaves identities, TTLs, destination flags and edges exactly as after the first time |
| `TopologyUpdate.RunKeepsBindings` | src/state/topology.c:115-192 | over every sequence of snapshots the store stays well-formed, an id's binding never changes and edges are never lost |
| `TopologyFlags.DestinationFlag` | src/state/topology.c:122-149 | after a snapshot the destination's node is flagged if and only if no hop or alias of the snapshot has the target's own address |
| `TopologyEdges.EdgesOfSnapshot` | src/state/topology.c:151-187 | every edge a snapshot adds goes from an address of a hop to one of the next hop, or to the destination when the next hop has no node or the hop is the last answering one; while the table has room all of these are there |
| `TopologyEdges.HopsAreLinked` | src/state/topology.c:152-165 | in particular from each address of a hop with a node to each other address of the next hop with a node, in this direction |
| `TopologyEdges.DestinationTtl` | src/state/topology.c:174-191 | the destination's TTL is one past the last answering hop |
| `TopologyEdges.HopTtl` | src/state/topology.c:129-149 | the node of an address has the number of the last hop that named it |
| `TopologyStore.Store.constructor` | src/state/topology.c:6-12 | the empty store: next id 1, no nodes, no edges |
| `TopologyStore.Store.FindByAddrAndTarget` | src/state/topology.c:14-24 | the slot scan finds the one node with this address and target, or none |
| `TopologyStore.Store.UpsertNode` | src/state/topology.c:26-57 | array slots, node count and next id change exactly as the upsert says; next id = node count + 1 and node id sits in slot id mod 1024 |
| `TopologyStore.Store.InsertEdge` | src/state/topology.c:59-84 | zero ids, loops, known edges and a full table change nothing; otherwise the edge is appended and counted |
| `TopologyStore.Store.NodeById` | src/state/topology.c:86-93 | finds exactly the ids given out, in slot id mod 1024 |
| `TopologyStore.Store.UpsertHop` | src/state/topology.c:130-148 | one hop's primary address and aliases become the padded row of node ids |
| `TopologyStore.Store.UpsertHops` | src/state/topology.c:125-149 | the rows of node ids for all hops |
| `TopologyStore.Store.LinkRows` | src/state/topology.c:151-172 | the nested loops add exactly the edges between consecutive rows, and to the destination from a node whose next row is empty |
| `TopologyStore.Store.LinkLast` | src/state/topology.c:182-187 | the last seen hop is linked to the destination |
| `TopologyStore.Store.FindLastHop` | src/state/topology.c:174-181 | the highest hop with a primary node |
| `TopologyStore.Store.UpdateFromTelemetry` | src/state/topology.c:115-192 | the whole in-place update equals the snapshot function about which the invariants and idempotence are proved |
| `JsonEncode.Buffer.Grow` | src/json/json.c:9-18 | afterwards there is room and the contents are unchanged |
| `JsonEncode.Buffer.AppendRaw` | src/json/json.c:20-26 | appends exactly the given bytes and keeps the terminating NUL |
| `JsonEncode.Buffer.AppendEscaped` | src/json/json.c:92-115 | appends the quoted string with the escapes of section 7 of RFC 8259 |
| `JsonEncode.Buffer.Key` | src/json/json.c:117-123 | a comma where one is due, the quoted key and a colon |
| `JsonEncode.Buffer.StringValue` | src/json/json.c:125-130 | a comma where one is due and the quoted string |
| `JsonEncode.MemberStep` | src/json/json.c:35-41 | the comma decision from the last byte alone is right: a key and its value extend the members' canonical text by exactly one member |
| `JsonEncode.ElemStep` | src/json/json.c:35-41 | the same for array elements |
| `JsonEncode.Buffer.Emit` | src/json/json.c:35-162 | emitting any tree call by call appends exactly its canonical compact text |
| `JsonEncode.Buffer.EmitMembers` | src/json/json.c:68-123 | emitting the members of an object yields their comma-separated text |
| `JsonEncode.Buffer.EmitElems` | src/json/json.c:80-90 | emitting the elements of an array yields their comma-separated text |
| `JsonText.EscapesWritten` | src/json/json.c:92-115 | a string is escaped byte by byte, with exactly these escapes |
| `JsonText.DigitsWritten` | src/json/json.c:132-139 | integers are written in decimal, the last digit last |
| `JsonText.TokensWritten` | src/json/json.c:68-90 | the brackets, separators and literals of the canonical text |
| `JsonDecode.SkipSpaces` | src/json/json.c:171-176 | the white-space loop ends inside the text at the first other byte |
| `JsonDecode.SkipString` | src/json/json.c:178-194 | on any text the loop ends and is the recursive string skipper: nothing, or a position behind a closing quote |
| `JsonDecode.SkipAny` | src/json/json.c:196-239 | on any text, well-formed or not, the skipper ends and returns nothing or a position inside the text |
| `JsonDecode.SkipObject` | src/json/json.c:201-220 | the member loop of the skipper |
| `JsonDecode.SkipArray` | src/json/json.c:221-233 | the element loop of the skipper |
| `JsonDecode.GetMember` | src/json/json.c:241-285 | the lookup loop: on any text it ends and returns nothing or a span inside the text; what it returns on texts of objects is ObjGetRecovers |
| `JsonDecode.Elements` | src/json/json.c:358-395 | array iteration on any text ends; its elements lie inside the text and strictly advance |
| `JsonDecode.ParseStr` | src/json/json.c:287-319 | succeeds exactly on a quoted value and returns its unescaped bytes cut to the buffer |
| `JsonRoundTrip.SkipValueOfSpaced` | src/json/json.c:196-239 | on a text of any tree with any blanks between its tokens, wherever it stands, the skipper ends exactly behind it; a number, true, false or null must be followed by a delimiter or the end |
| `JsonRoundTrip.SkipValueOfText` | src/json/json.c:196-239 | in particular on the canonical text in front of a delimiter or the end |
| `JsonRecover.ObjGetOfSpaced` | src/json/json.c:241-285 | on the text of any object, with any blanks between its tokens, the lookup yields exactly the place of the first member's value whose encoded key equals the bytes asked for, or nothing |
| `JsonRecover.OwnKeyFinds` | src/json/json.c:241-285 | in the text of any object with a member under a key, the lookup of that key stops at the first such member if and only if the key needs no escapes |
| `JsonRecover.WrongMember` | src/json/json.c:241-285 | for every key that needs escapes there is an object in which asking for another member's key yields the value under the first one |
| `JsonRecover.ObjGetRecovers` | src/json/json.c:241-285 | in the text of any object, with any blanks, the lookup of a key that needs no escapes returns exactly the text of the first value stored under it, without the blanks around it, or nothing when there is none |
| `JsonRecover.ElementsOfSpaced` | src/json/json.c:358-395 | array iteration over the text of any array, with any blanks, yields exactly its elements, in order and without the blanks around them |
| `JsonRecover.StringRoundTrip` | src/json/json.c:287-319 | an encoded string parsed into a buffer comes back if and only if it fits with its NUL and has no control byte that is written as `\u00xx` |
| `JsonRecover.IntRoundTrip` | src/json/json.c:321-331 | every 64-bit integer is read back exactly, with its whole text used |
| `JsonRecover.BoolRoundTrip` | src/json/json.c:345-356 | booleans are read back |
| `Framing.LinesAreMessages` | src/json/json_rpc.c:151-237 | however a framed stream is cut: lines and remainder that spell a prefix of it are its first messages, and all of them when it is complete |
| `Framing.TextIsOneLine` | src/json/json.c:92-115 | the encoder never emits a raw newline: the text of any tree is one line |
| `Framing.BuildRequest` | src/json/json_rpc.c:103-123 | the request is the canonical text of its object, with an empty object for missing parameters; parameters may hold any numbers |
| `Framing.LineIdOf` | src/json/json_rpc.c:291-317 | a line that starts with the text of an object, with any blanks, is read with the 64-bit id under its first id key, whatever follows |
| `Framing.RequestRoundTrip` | src/json/json_rpc.c:103-147 | every request is one line and carries its id through encoding and decoding |
| `RpcChannel.ZeroTimeoutExpires` | src/json/json_rpc.c:157-195 | with a zero timeout the deadline has passed at the first check, on every monotone clock |
| `RpcChannel.Channel.Send` | src/json/json_rpc.c:79-101 | through any partial and interrupted writes: success means the whole message and its newline went out in order; failure means a prefix of it and a dead channel |
| `RpcChannel.Channel.RecvLine` | src/json/json_rpc.c:151-237 | for every clock and every sequence of reads and timeouts: lines delivered, each with its newline, then the buffer, are the bytes read; it gives up on a live channel only when a reading is more than timeout - 1 ms after the start or the clock fails, polls only before the timeout is over, and delivers a line that the first turn completes in time; with a zero timeout it reads nothing, and each line taken shrinks the buffer |
| `RpcChannel.MillisLeftBounds` | src/json/json_rpc.c:185-195 | in nanoseconds: nothing is left from the deadline on, and something is left up to a millisecond before it |
| `RpcChannel.DeadlineClock` | src/json/json_rpc.c:157-168 | the deadline is the start plus the timeout, with its carry |
| `RpcChannel.Channel.DiscardQueued` | src/json/json_rpc.c:319-356 | empties the buffer and leaves of the pipe exactly what at most 64 reads leave, wherever that is; an error or the end kills the channel |
| `RpcChannel.AnyCut` | src/json/json_rpc.c:319-356 | one read can end a discard at any byte within its reach |
| `KeyQueue.Queue.Enqueue` | src/plugin/plugin.c:48-57 | appends unless eight keys wait |
| `KeyQueue.Queue.Dequeue` | src/plugin/plugin.c:59-71 | removes the oldest key, or reports that there is none |
| `KeyQueue.Queue.Reset` | src/plugin/plugin.c:40-46 | empties the queue |
| `PluginWire.WholeAfter` | src/json/json_rpc.c:319-356 | a discard leaves only whole lines if and only if the last byte it took was a newline |
| `PluginWire.FragmentMimicsReply` | src/json/json_rpc.c:319-356 | for every next id there is an honest reply to the request before it that, cut by a discard, reads as the reply to that next id |
| `PluginTorn.StaleReplyAccepted` | src/plugin/plugin.c:506-529 | for every first id there is a run of an honest plugin in which a force_sync, with one read and one quiet poll, cuts a reply and the host accepts the rest, written before, as the answer to a later request |
| `PluginRuns.PendingDistinct` | src/plugin/plugin.c:665-711 | in every run outstanding requests of different kinds have different ids, below next_id and not older than the latest force_sync |
| `PluginSteps.DoSettled` | src/plugin/plugin.c:506-711 | every step (line written, request, key, line read, channel death) keeps the ledger of ids and keys, and leaves keys waiting only behind an outstanding on_key of a live channel |
| `PluginSteps.RunSettled` | src/plugin/plugin.c:506-711 | so does every run, and no fate once recorded changes |
| `PluginRuns.RepliesMatch` | src/plugin/plugin.c:665-711 | in every run each reply went to the kind that asked, for a request not older than the latest force_sync, and its line was written after the request if and only if the line was whole; as long as no discard was torn every line is |
| `PluginRuns.AbandonedNeverAnswered` | src/plugin/plugin.c:506-529 | a request given up by a force_sync is answered in no continuation of the run |
| `PluginRuns.OutstandingIffPending` | src/plugin/plugin.c:665-711 | in every run a pending flag with an id is set if and only if that request was sent and its reply neither consumed nor given up |
| `PluginRuns.PendingReplyUnderWay` | src/plugin/plugin.c:665-711 | in every run a reply written for a request that is still pending is still under way, whole: it was neither read nor discarded |
| `PluginRuns.CachedIsFresh` | src/plugin/plugin.c:684-697 | in every run a non-empty cached rendering is the text of a line taken as a reply of its kind since the latest force_sync |
| `PluginRuns.KeysInOrder` | src/plugin/plugin.c:577-597 | in every run the on_key requests carry accepted keys in order; a live entry with none outstanding has an empty queue; without force_sync or channel death every accepted key was sent, waits, or was dropped from a full queue |
| `PluginRuns.OverflowIsOldest` | src/plugin/plugin.c:986-994 | a key is dropped only when another arrives at a queue of eight, and it is the oldest |
| `PluginHost.Transmit` | src/json/json_rpc.c:125-147 | a request goes out as the canonical text of its object and a newline, or the channel is dead |
| `PluginLedger.RequestWritten` | src/json/json_rpc.c:103-147 | a request as it goes out, byte for byte |
| `PluginLedger.KeyWritten` | src/plugin/plugin.c:19-30 | the parameters of an on_key request, byte for byte |
| `PluginHost.Entry.constructor` | src/plugin/plugin.c:320-321 | a fresh entry: nothing outstanding, no keys, nothing under way, nothing cached, no last key |
| `PluginHost.Entry.SendNextKey` | src/plugin/plugin.c:577-597 | sends the oldest key exactly when none is outstanding and the channel lives; a failed write loses it with the channel |
| `PluginHost.Entry.ForceSync` | src/plugin/plugin.c:506-529 | drops the buffer, a prefix of the pipe, all pending requests, all keys and both cached replies, and nothing else |
| `PluginHost.Entry.SyncByMessage` | src/plugin/plugin.c:531-554 | the same, and the modal flag follows the message if it carries one |
| `PluginHost.Entry.TakeNextLine` | src/json/json_rpc.c:291-317 | the line taken is the oldest line under way, byte for byte |
| `PluginHost.Entry.TakeReply` | src/plugin/plugin.c:684-702 | clears the flag of that kind and records which line answered which id |
| `PluginHost.Entry.HandleAction` | src/plugin/plugin.c:631-663 | a result without a reset flags the file to edit, or forgets the last key and, if handled, the cached rendering; no request and no key changes |
| `PluginHost.Entry.CacheReply` | src/plugin/plugin.c:684-697 | the reply becomes the cached rendering of its kind and nothing else changes |
| `PluginHost.Entry.HandleOnKeyResult` | src/plugin/plugin.c:622-663 | the modal flag follows the result; a result that asks for it resets everything, any other has only its editor and redraw effects |
| `PluginReplies.ReplyOnTree` | src/plugin/plugin.c:556-575 | a reply to the outstanding on_key, by the value it spells with any blanks: the entry is reset exactly when the result has force_sync true; it becomes modal or not exactly if the result says so; otherwise open_editor sets the file to edit, and without it the cached rendering is emptied exactly on handled true |
| `PluginReplies.SyncOnTree` | src/plugin/plugin.c:531-554 | a message is a force_sync exactly by its method; it resets the entry and makes it modal or not exactly if its parameters say so |
| `PluginReplies.FileIsExact` | src/plugin/plugin.c:640-650 | the file to edit is exactly the string in the reply if it fits and has no byte that is not read back |
| `PluginHost.Entry.Dispatch` | src/plugin/plugin.c:665-710 | one line: a force_sync message, a reply to the first matching kind (render, render_hops, on_key) cached or acted upon, or nothing; the contract fixes every field of the entry |
| `PluginHost.Entry.DrainResponse` | src/plugin/plugin.c:665-711 | is exactly one reading step of the run, or none; with a zero timeout each success shrinks the receive buffer |
| `PluginHost.Entry.Drain` | src/plugin/plugin.c:665-711 | one drain is a run of at most the plugin's writing and one reading step, which also determines the cached renderings and the other fields; the cached renderings stay replies since the latest force_sync |
| `PluginHost.Entry.DrainAll` | src/plugin/plugin.c:965-966 | the loop that drains with a zero timeout ends on every monotone clock, whatever the plugin writes meanwhile, and is a run in which no key is accepted, which also determines the other fields |
| `PluginHost.Entry.Passes` | src/plugin/plugin.c:968-985 | a modal key within 120 ms of the last one let through and a repetition within 40 ms do not pass; the remembered key and times move exactly when the code moves them |
| `PluginHost.Entry.AcceptKey` | src/plugin/plugin.c:986-1000 | a key that passes is queued, at the expense of the oldest if eight wait, and sent if none is outstanding |
| `PluginHost.Entry.TryOnKey` | src/plugin/plugin.c:960-1001 | is a run in which at most this key is accepted, at its end, which also determines the other fields up to the memory of the last key; returns true exactly for modal or reserved keys |
| `PluginHost.Entry.Ask` | src/plugin/plugin.c:831-835 | a request goes out exactly when none of its kind is outstanding on a live channel |
| `PluginHost.Entry.Refresh` | src/plugin/plugin.c:797-835 | one drain, then one request: afterwards a request of the kind is outstanding or the channel is dead, and the other fields are what the run makes of them |

## Left out

- Weak memory: the rings are interleavings of single loads and stores in program order; what acquire and release ordering rule out is not derived from a memory model.
- Counter overflow: sent, recv, next_id, probe counts and sums of round-trip times are unbounded (the ring indices, 16-bit sequence numbers, the hash and the checksum do wrap as in C).
- Logic process respawn (src/core/main.c:296-307): conservation is stated for one logic lifetime.
- Interval changes from the user interface: an interval of at least 10 ms is assumed, as the option clamp gives it.
- Sockets, pipes, poll, fork, signals and clocks are arbitrary inputs; a call that never returns is not an outcome.
- Pacing.Adjust: the loss average is a real number, not a float, and the totals it is given do not decrease.
- Round-trip times, last_status, sweep_timeouts, health scores, jitter and loss ratios.
- Parsing of received IPv4 packets and parse_ipv6 of the sniffer: the pipeline takes the sequence number a packet quotes as arbitrary.
- Texts of other writers: blanks between tokens are covered, spellings of strings other than the encoder's (such as `\u` escapes) are not.
- Which number the text of a JSON double stands for, nsr_json_parse_double, and the C stack depth of skip_value.
- Framing.BuildRequest: parameters are what the encoder emits for some tree, or empty; a caller that pasted other text is not modelled.
- The synchronous init call, try_recv_response, notifications and closing a channel: an entry starts after its init call.
- PluginHost.Entry.Refresh: only the send step of the render and render_hops functions; drawing and parameters are left out.
- BucketRing.Ring.AddSample: timestamps do not decrease; the per-address sample ring of the percentile plugin is left out.
- HopAliases.HopInfo.Update: the address is what inet_ntop produced, so it is not empty and fits its field.
- Malloc failure, configuration files, key slots, curl and IP2Location lookups, the user interface, the supervisor and the other plugins.
