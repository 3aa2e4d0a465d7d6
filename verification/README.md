# Proofs about the core of the log analyser

This project models the parts of the C log-analysis engine that carry its algorithms, and proves
what they promise. One module follows one component:

- `BlockStream`, `Sha256Spec`, `Sha256Stream`, `Kdf` and `Logger`: the two streaming SHA-256
  implementations, HMAC and PBKDF2, against FIPS 180-4, RFC 2104 and RFC 8018.
- `Wrappers`, `Texts` and `Probing`: options, pieces of text and probe paths, shared by the others.
- `Decimals`, `Timestamp`, `Parser`, `ParserLoop` and `ParserRoundTrip`: the log-line state
  machine, its time stamps, and a printer that it inverts.
- `SpmcQueue`, `IpMap`, `AlertRing` and `AlertRows`: the lock-free structures, as steps of interleaved
  threads with a history of what was published, claimed and answered.
- `Splitter` and `Pipeline`: from a file to chunks to lines, and through the queue.
- `Stats`, `ScoreRuns` and `Detector`: moving mean, moving variance and the distance score, in any order of
  observations, in the order the detector keeps, and for lines that were parsed.
- `TopK`: the heap of the ten highest scores.
- `Base64` and `EtcdMesh`: publishing a ban and reading it back through bounded buffers.
- `AptGraph`, `AptPurge`, `Incidents`, `ConsultCache` and `Eviction`: tables kept over plain arrays.
- `Window`: the ring of request times and the burst alert that counts in it.
- `Cidr`: prefix masks, address ranges and the country lookup.

Code that works in place is modelled in place: the loops are loops with invariants, and the
records and tables are classes. Each such method is proved against a specification on values, and
the theorems are proved about that specification over every input, run or reachable state.
Where a property fails, a lemma gives the failing run or input next to the exact condition under
which it holds.

Inputs that come from outside are parameters: the clock, the payload hash and entropy of a request,
address parsing by the C library, the trusted-proxy test, and the two authentication-log parsers.

In two places the code does less than its comments and defaults say. The burst alert is set to 300
requests in a second by default; its ring holds 128 times, so at that threshold it never fires. The
score comment lists a critical band from distance 5.5; no line that was parsed gets there, because the
response time of an entry is cleared and never filled in (parser.c:445), and two dimensions alone reach
a squared distance of 20 at most (`Detector.ParsedNeverTops`).

The other theorems about the score are for a caller that does fill the response time. The histories of
`Stats` are free sequences of scored and silently learnt samples under any settings. The detector scores
a sample first and learns it silently only after that (anomaly.c:525-555); `ScoreRuns` is about runs in
that order. There the peak of a longer answer is a least upper bound that no run reaches, while a free
history does reach it.

## Model

| member | source | states |
|---|---|---|
| `Sha256Spec.PadIsMinimal` | crypto_utils.c:87-97 | the padding is the one of section 5.1.1 of FIPS 180-4: the padded length is 448 modulo 512 bits before the length field, with the fewest zero bits that do so |
| `Sha256Spec.LengthFieldValue` | crypto_utils.c:98-102 | the eight length bytes, read with the most significant first, are the length in bits modulo 2^64 |
| `Sha256Spec.HoldsBlock` | crypto_utils.c:79-83 | what the state stands for when the 64th byte of a block arrives: one more compression, no byte pending |
| `Sha256Spec.HoldsFinishOne` | crypto_utils.c:89-91 | with fewer than 56 bytes pending, one last block finishes the padded message |
| `Sha256Spec.HoldsFinishTwo` | crypto_utils.c:92-97 | with 56 or more bytes pending, two last blocks finish the padded message |
| `Sha256Stream.Expand` | crypto_utils.c:52-56 | the message schedule of step 1 of section 6.2.2 of FIPS 180-4 |
| `Sha256Stream.RunRounds` | crypto_utils.c:57-63 | the 64 rounds of step 3 of section 6.2.2, starting from the eight state words |
| `Sha256Stream.Transform` | crypto_utils.c:50-66 | the state in place becomes the compression of the old state and the block |
| `Sha256Stream.StoreDigest` | crypto_utils.c:104-113 | the digest bytes are the eight words, the most significant byte first |
| `Sha256Stream.Sha256Ctx.constructor` | crypto_utils.c:68-74 | a new context stands for the empty message |
| `Sha256Stream.Sha256Ctx.Update` | crypto_utils.c:76-85 | the context stands for the old message followed by the input, whatever was buffered |
| `Sha256Stream.Sha256Ctx.PadMessage` | crypto_utils.c:88-97 | after padding in place, one compression of the buffer and the length field is all that is left of the digest |
| `Sha256Stream.Sha256Ctx.Final` | crypto_utils.c:87-114 | the output is SHA-256 of the message the context stands for |
| `Sha256Stream.HashPieces` | crypto_utils.c:68-114 | for every way of cutting a message into updates the digest is SHA-256 of the pieces joined |
| `Kdf.HmacSha256` | crypto_utils.c:134-158 | HMAC of section 2 of RFC 2104 for every key length, also when the output buffer is the message buffer |
| `Kdf.Pbkdf2Hex` | crypto_utils.c:186-207 | an error exactly for an empty salt, a salt over 124 bytes or fewer than 10000 iterations; otherwise block 1 of section 5.2 of RFC 8018 in lower-case hex |
| `Kdf.HexDecode` | crypto_utils.c:169-182 | accepts exactly the even-length hex texts that fit, and yields bytes that the text spells |
| `Kdf.HexRoundTrip` | crypto_utils.c:169-182 | the hex of any bytes is accepted whenever it fits, and these bytes are the only ones that meet the promise of the decoder |
| `Kdf.SecureEquals` | crypto_utils.c:11-22 | true if and only if the two texts are equal, although the lengths are compared modulo 256 only |
| `Logger.S256.constructor` | logger.c:142-146 | a new context of the second copy stands for the empty message |
| `Logger.S256.Update` | logger.c:147-149 | the context stands for the old message followed by the input, and its bit counter for the length modulo 2^64 |
| `Logger.S256.PadMessage` | logger.c:150-153 | the padding written in the other order leaves the same last compression |
| `Logger.S256.Finish` | logger.c:150-160 | the output is SHA-256 of the message, so the two copies agree |
| `Logger.HashPieces` | logger.c:142-160 | for every way of cutting a message into updates this copy gives the same digest |
| `Logger.HmacS256` | logger.c:161-171 | the same HMAC as the other copy, for every key length |
| `Timestamp.DayNumberStep` | parser.c:112-157 | the next day of the calendar is the next day number of timegm, over month and year ends and the leap-year rule |
| `Timestamp.DayNumberOfDate` | parser.c:112-157 | the day-number formula inverts the calendar obtained by counting days from 1 January 1970 |
| `Timestamp.ParseTimestamp` | parser.c:112-157 | the scanning loops compute the field-by-field reading, 0 for every malformed text |
| `Timestamp.ParseOfRender` | parser.c:112-157 | for every offset sign, hours and minutes and every instant whose local time is not before the epoch: reading the rendered local time gives the instant after the epoch, and 0, which means unreadable, at it |
| `Timestamp.ZonesAgree` | parser.c:112-157 | two renderings of one instant under different offsets are read as the same time |
| `Parser.QuotesAgree` | parser.c:187-197 | from every position with an even run of backslashes before it, the forward pair skipper and the backward parity test stop at the same quote |
| `Parser.ClosingQuote` | parser.c:553-558 | from the start of a field the two searches find the same closing quote in every text |
| `Parser.Step` | parser.c:468-639 | each turn of the loop moves forward or, in place, to a state of lower rank |
| `Parser.ApplyForwarded` | parser.c:648-673 | only the address can change, and only behind a trusted proxy |
| `Parser.ParsedWithoutTime` | parser.c:443-677 | the response time of every parsed line is zero: the entry is cleared and no state stores anything there |
| `ParserLoop.IsUnescapedClosingQuote` | parser.c:187-197 | true exactly for a quote preceded inside the field by an even number of backslashes |
| `ParserLoop.LogLineIsTampered` | parser.c:199-205 | true exactly when the line has a NUL, carriage return or escape byte |
| `ParserLoop.FindLit` | parser.c:207-215 | true exactly when the literal occurs |
| `ParserLoop.Machine.Turn` | parser.c:467-639 | one turn in place, for each of the states, is one step of the machine |
| `ParserLoop.Machine.Loop` | parser.c:467-640 | the loop ends, and ends in the last configuration of the run |
| `ParserLoop.ParseLogLine` | parser.c:443-677 | the whole function: tampered, authentication, malformed and parsed lines |
| `ParserRoundTrip.RoundTrip` | parser.c:443-677 | for every request of legal tokens and escaped quoted fields, any number of them: the printed line parses to exactly its fields, a dash read as empty for body, cookie and host and a path-like body as empty, or is malformed exactly when address, time stamp, url or status says so |
| `ParserRoundTrip.StampedRoundTrip` | parser.c:443-677 | a request stamped with an instant in any zone comes back with that instant |
| `ParserRoundTrip.EscapedExactly` | parser.c:553-639 | a text can stand between quotes if and only if it is escaped, so the condition of the round trip is exact |
| `ParserRoundTrip.EscapeIsEscaped` | parser.c:185-197 | escaping quotes and backslashes makes any text fit |
| `Splitter.FindNewline` | parser.c:679-699 | the search 32 bytes at a time finds the newline that a search byte by byte finds |
| `Splitter.WalkLines` | main.c:3057-3068 | a worker hands on exactly the non-empty lines of its chunk, in order |
| `Splitter.CutIntoChunks` | main.c:4091-4111 | the chunks are consecutive, non-empty, cover the file, and each ends after a newline or at the end of the file |
| `Splitter.SplitIsLossless` | main.c:4091-4111 | the lines of the chunks, chunk by chunk, are the lines of the file |
| `Splitter.LineInOneChunk` | main.c:4091-4111 | every line lies inside one chunk and meets no other |
| `SpmcQueue.QueueSafety` | main.c:3004-3039 | in every interleaving of the producer and any number of workers: 0 to 2048 chunks queued, each index claimed once and in order by a worker that has read it or is about to, each pointer read in time the one published under the claimed index and each late one from a later chunk of the slot, and behind every worker that has left everything claimed that its last load of head showed, all there was if that load came after done |
| `SpmcQueue.DrainedExactly` | main.c:3005-3010 | in every interleaving, once all workers have left: the queue is drained if and only if the last load of head of one of them showed the final head; a load after done always does |
| `SpmcQueue.HistoryGrows` | main.c:2984-2995 | no step changes a published chunk, a claim or a receipt; a receipt is only written by the claimant |
| `SpmcQueue.ClaimantCanRead` | main.c:3039-3039 | a claimant is never blocked |
| `SpmcQueue.EarlyExit` | main.c:3005-3010 | a run in which the last load of head of the only worker comes before the final store, and a chunk stays behind: draining does need its condition |
| `SpmcQueue.LateRead` | main.c:3033-3039 | for any two chunks a run in which a stalled claimant reads the second instead of its own: the side condition on slot reuse is needed |
| `SpmcQueue.MixedRead` | main.c:3039-3039 | for any two chunks a run in which the claimant stalls between the two pointers and gets the start of one chunk with the end of the other |
| `Pipeline.ReceivedExactly` | main.c:3004-3039 | when the chunks of a file were enqueued and all workers have left: every chunk was received as it was published if and only if some worker had loaded the final head and every read was in time |
| `Pipeline.EveryLineWalked` | main.c:4091-4111 | end to end: when the chunks of the file were enqueued, all workers have left, one of them had loaded the final head and every read was in time, the lines of the received chunks, in the order of the claims, are the lines of the file |
| `IpMap.MapSafety` | ip_map.c:35-77 | in every interleaving of get-or-create calls without eviction: no two slots hold the same address, all calls for an address got one slot, and with no writer active size is the number of ready slots |
| `IpMap.Unique` | ip_map.c:43-77 | no two slots are ever reserved for the same address, even before it is copied |
| `IpMap.SizeKeeps` | ip_map.c:50-60 | size counts the ready slots and those about to become ready, step by step |
| `IpMap.EvictionDuplicates` | ip_map.c:274-275 | for every two addresses with the same home slot: evicting the first and asking for the second stores the second twice, so the theorem does not survive eviction |
| `IpMap.EvictionSafeExactly` | ip_map.c:236-276 | after every run that leaves the threads idle: evicting a slot lets no later run hold an address twice if and only if no other address has a probe chain through that slot |
| `Eviction.AddressMap.EvictLru` | ip_map.c:208-281 | run alone: exactly min(requested, eligible) eligible records are cleared, no eligible survivor was used before an evicted one, every other record is unchanged, and size stays the number of ready slots |
| `Eviction.AddressMap.Collect` | ip_map.c:223-243 | the candidates are the eligible slots, each once |
| `Eviction.ProtectedStay` | ip_map.c:228-237 | no banned, stage-2 or recently seen record is touched |
| `Window.SlidingWindow.Push` | ip_map.c:142-150 | the ring holds the last 128 times, also after the 32-bit head has wrapped |
| `Window.SlidingWindow.CountSince` | ip_map.c:152-158 | the count over the ring is the count over the last 128 pushes, so at most 128 |
| `Window.WrappedSlot` | ip_map.c:143-144 | the slot of a wrapped head is the slot of the unbounded one |
| `Window.SlidingWindow.BurstFires` | anomaly.c:413-415 | the burst test on the ring decides the burst of the history |
| `Window.FiresExactly` | anomaly.c:413-427 | some traffic fires the burst alert if and only if its threshold is at most 128 |
| `Window.DefaultNeverFires` | anomaly.h:61 | with the default threshold of 300 no traffic fires it |
| `AlertRing.RingSafety` | db.c:276-297 | in every interleaving of p producers and the writer: at most 4096 + p - 1 entries although the test for room uses stale loads, head never passes tail, and accepted plus dropped is the number of calls once none is in flight |
| `AlertRing.BoundIsReached` | db.c:279-286 | for every p some interleaving reaches 4096 + p - 1 entries, so the bound is exact |
| `AlertRing.StepKeeps` | db.c:44-84 | the invariant behind both, kept by every atomic step of producers and writer |
| `AlertRows.RowExactly` | db.c:62-84 | in every interleaving the row written for an entry is made from the alert accepted under it if and only if the entry was filled before the row was written and its slot was not filled again in between |
| `AlertRows.FilledOnce` | db.c:285-296 | no entry is filled twice, in any interleaving |
| `AlertRows.WhoElse` | db.c:285-296 | with at most 4097 producers, what fills the slot again before the row is written is the entry 4096 further on, or an earlier one whose producer had stalled |
| `AlertRows.RowBeforeFill` | db.c:285-296 | a run in which a row is written before its entry is filled: the condition is needed |
| `Stats.AdaptiveRecord.Update` | adaptive_threshold.c:60-81 | the record in place follows the moving mean: the first sample as it is, nothing while disabled |
| `Stats.EwmaVariance.Update` | anomaly.c:705-734 | the record in place follows the moving variance: summed for four samples, averaged at the fourth, weighted after |
| `Stats.WeightedScore` | anomaly.c:779-802 | the learning part of the score: variance, then mean, then the band of the distance; nothing without requests |
| `Stats.BandOfRoot` | anomaly.c:798-801 | bands told from the squared distance are the bands of its root |
| `Stats.RunNonNegative` | anomaly.c:705-734 | over every history, scored or silently learnt, the variances are non-negative |
| `Stats.DistanceBound` | anomaly.c:736-755 | in every state with such variances an observation of at most 5000 ms, or any while adaptation is off, is within 30 times the squared share of the old distance |
| `Stats.TopBandUnreachable` | anomaly.c:779-802 | after every history and under every setting in force at each moment: an observation of at most 5000 ms, or any while adaptation is off, scores at squared distance 30 or less, 30(1-alpha)^2 with adaptation on and a prior sample, and never in the top band |
| `Stats.TimelessBound` | anomaly.c:779-802 | after every history without response times and under every setting: squared distance 20 or less, 20(1-alpha)^2 with adaptation on and a prior sample, and never the top band |
| `Detector.ParsedNeverTops` | anomaly.c:779-802 | after every history of parsed lines, whatever the counters and the settings of each moment, no parsed line scores in the top band |
| `Stats.PeakBound` | anomaly.c:736-755 | in every state with a learnt mean an answer over 5000 ms stays within 20(1-alpha)^2 + 10^9((1-alpha)/10^4 + alpha(ms/5000 - 1))^2 |
| `Stats.PeakReached` | anomaly.c:736-755 | one free history of scored and silent observations reaches this peak exactly, for every alpha and every answer over 5000 ms, so the bound over all states cannot be lowered |
| `Stats.LongAnswerReachesTop` | anomaly.c:736-755 | a free history to the top band whenever a peak, with or without a learnt mean, is at least 5.5 squared |
| `Stats.TopExactly` | anomaly.c:736-755 | over free histories, for every setting and response time: some history and some observation of that time reach the top band if and only if adaptation is on, the time is over 5000 ms and a peak is at least 5.5 squared; with a mean learnt before, if and only if its own peak is |
| `ScoreRuns.Detect` | anomaly.c:525-555 | one call of the last stage: an observation is scored, and learnt silently after that if and only if its score stays below 14 |
| `ScoreRuns.RunRemembers` | anomaly.c:525-555 | over every run in this order, for a caller that fills the response time: the variance of the response time is above zero unless no response time was ever learnt |
| `ScoreRuns.PeakStrict` | anomaly.c:736-755 | in every state of such a run with a learnt mean, an answer over 5000 ms stays strictly below its peak |
| `ScoreRuns.Approach` | anomaly.c:525-555 | for every setting with adaptation on, every answer over 5000 ms and every level below its peak, a run in this order in which the answer scores above that level |
| `ScoreRuns.BoundFails` | anomaly.c:525-555 | for every answer over 5000 ms and every alpha with adaptation on, a run in this order in which it exceeds 30(1-alpha)^2: the limit of 5000 ms is exact |
| `ScoreRuns.DetectorTopExactly` | anomaly.c:525-555 | for every setting and response time: some run in this order, with at least one request in the window, reaches the top band if and only if adaptation is on, the time is over 5000 ms, and either its peak is above 5.5 squared or 10(ms/5000 - 1)^2, its peak with nothing learnt before, is at least that |
| `Stats.MeanWithin` | adaptive_threshold.c:60-81 | over every history the means lie between the least and the greatest sample learnt |
| `TopK.MinHeap.SiftUp` | min_heap.c:14-24 | a permutation; an entry out of order with its parent alone ends in heap order, one out of order on both sides leaves at most its children wrong |
| `TopK.MinHeap.SiftDown` | min_heap.c:26-35 | a permutation; an entry out of order with its children alone ends in heap order |
| `TopK.MinHeap.TryInsert` | min_heap.c:43-67 | which records the heap holds afterwards, and heap order again whenever it held away from the record inserted |
| `TopK.OneChanged` | min_heap.c:48-55 | a change of one score spoils the order around its record only |
| `TopK.Reinsert` | min_heap.c:43-67 | inserting the one record whose score changed restores the heap order, and keeps the best ten if the score grew |
| `TopK.TrackAll` | min_heap.c:43-67 | after any run in which a record is inserted whenever its score has grown: heap order and the best ten of the records seen, each once, under the scores of the moment |
| `TopK.RootIsMin` | min_heap.c:69-74 | the root scores least |
| `TopK.InsertAll` | min_heap.c:43-67 | after any run of insertions with fixed scores: min(10, distinct) distinct records in heap order, none left out scoring above one kept |
| `TopK.BestKeeps` | min_heap.c:58-65 | one insertion keeps the best ten |
| `TopK.MinHeap.SortDesc` | min_heap.c:76-89 | a permutation of the heap, descending for a heap in order, padded with NULL; the heap itself is unchanged |
| `Base64.Encode` | etcd_mesh.c:62-80 | the buffer holds the encoding of section 4 of RFC 4648 of as many whole groups as fit, terminated |
| `Base64.Decode` | etcd_mesh.c:248-264 | the buffer holds the decoding of the whole groups there is room for |
| `Base64.RoundTrip` | etcd_mesh.c:62-80 | decoding an encoding through a buffer gives a prefix, and gives it all if and only if whole groups leave room |
| `Base64.DecodeOfCut` | etcd_mesh.c:248-264 | decoding any cut of an encoding gives exactly the octets of the whole groups that were kept |
| `EtcdMesh.EncodeValue` | etcd_mesh.c:171-186 | the text sent is the encoding of the JSON value cut to 511 characters |
| `EtcdMesh.CopyField` | etcd_mesh.c:286-290 | a bounded copy up to the quote, the end or the buffer |
| `EtcdMesh.ProcessWatchEvent` | etcd_mesh.c:281-299 | the extraction loops compute the address a message carries, or none |
| `EtcdMesh.WatcherRecovers` | etcd_mesh.c:281-299 | for every score, tactic, reason and time, however long, the watcher takes out the first 63 characters of the published address, hence all of an address of up to 45 |
| `AptGraph.Engine.FindOrCreate` | apt_graph.c:81-108 | with the bucket table in any valid state it finds the cluster a scan from the front finds, creates one if there is room, and keeps the table valid |
| `AptGraph.Engine.AddIpTo` | apt_graph.c:111-123 | an address is recorded once, its last time kept, up to 32 of them |
| `AptGraph.CheckSync` | apt_graph.c:130-139 | true exactly when five members were active in the window |
| `AptGraph.Engine.Submit` | apt_graph.c:150-211 | one call is one step of the specification, with the same verdict |
| `AptGraph.StepTracks` | apt_graph.c:150-211 | over every history without purge a call reports if and only if it brings the fifth address of an admitted payload; clusters, members, last times, totals mirror the history |
| `AptGraph.FifthIsFifthSender` | apt_graph.c:150-211 | the fifth member is the fifth distinct sender |
| `AptGraph.AllAdmitted` | apt_graph.c:81-108 | with at most 512 different payloads every payload has a cluster |
| `AptGraph.AlertsOnce` | apt_graph.c:150-211 | each admitted payload with five senders was reported exactly once in the run, every other never |
| `AptGraph.DetectionsCount` | apt_graph.c:150-211 | detections is the number of such payloads, and the total the number of clusters |
| `AptGraph.SyncVerdict` | apt_graph.c:130-139 | the alert says synchronised if and only if the last request of every sender lies in the window |
| `AptGraph.Engine.Purge` | apt_graph.c:245-262 | the clusters kept are exactly those at or after the cutoff, unchanged, in the order the swaps leave, with a valid table |
| `AptPurge.ReportsExactly` | apt_graph.c:150-262 | over every run of submissions and purges: a call reports its payload if and only if it finds room and brings the fifth distinct sender since the cluster was made |
| `AptPurge.OncePerCluster` | apt_graph.c:150-262 | between two reports of one payload a purge removed its cluster |
| `AptPurge.RemovedExactly` | apt_graph.c:245-262 | a purge removes a payload if and only if its last call lies before the cutoff |
| `AptPurge.ReportedAgain` | apt_graph.c:150-262 | after every run, five different senders of a payload that has no cluster, as after a purge, report it |
| `Incidents.Engine.SlotFind` | incident_engine.c:45-54 | the probe loop finds the slot of the address, and none only if no slot has it |
| `Incidents.Engine.SlotGetOrCreate` | incident_engine.c:56-78 | the own slot, else the first free one, else the one that waited longest |
| `Incidents.Engine.HotTouch` | incident_engine.c:80-92 | the list of recent addresses after one more |
| `Incidents.Engine.MaybeOpen` | incident_engine.c:117-126 | an ID is opened, and counted, exactly when the rule is met and there is none |
| `Incidents.Engine.NoteSignal` | incident_engine.c:152-168 | one call is one step of the specification |
| `Incidents.Engine.NoteHostSignal` | incident_engine.c:170-182 | one call is one step of the specification, for all recent addresses in turn |
| `Incidents.RunKeeps` | incident_engine.c:152-182 | in every reachable state with addresses of up to 45 characters: one slot per address, and an ID in every slot that meets the rule |
| `Incidents.AttachOpensNothing` | incident_engine.c:205-208 | attaching an alert never opens an incident in a reachable state |
| `Incidents.IdStays` | incident_engine.c:117-134 | over every run an ID and its address stay as they are unless the slot expires or is given to another address |
| `Incidents.TotalCounts` | incident_engine.c:117-126 | over every run the correlated total is the number of IDs held plus the number lost, so every ID ever opened is counted once |
| `Incidents.LongAddressTwice` | incident_engine.c:56-67 | every valid address of 46 or more characters, noted twice, fills two slots with the same address: the limit is exact |
| `Cidr.MatchIsMembership` | firewall.c:78-83 | for every address, network and prefix length the mask test is membership in the range built from the same prefix |
| `Cidr.RangeIs` | geoip_lookup.c:72-76 | the range of a prefix is its bits followed by zeros, to its bits followed by ones |
| `Cidr.ParsedMatches` | geoip_lookup.c:56-78 | an address lies in the range parsed from a text if and only if the text is read as a network, an unreadable one starting with 0 as address 0, that the firewall test matches, for every prefix length |
| `Cidr.InRange` | geoip_lookup.c:56-78 | an address lies in the range built from a prefix if and only if it starts with the bits of the prefix |
| `Cidr.NestedOrDisjoint` | geoip_lookup.c:56-78 | any two such ranges are nested or disjoint |
| `Cidr.MatchesList` | firewall.c:87-97 | true exactly when some entry matches |
| `Cidr.Lookup` | geoip_lookup.c:152-174 | the loop is the halving search |
| `Cidr.FoundExactly` | geoip_lookup.c:152-174 | for every table sorted by start and every address: the halving search finds an entry if and only if some entry covers the address and no probe to its right turns the search away |
| `Cidr.MissedExactly` | geoip_lookup.c:152-174 | an address is missed if and only if entries cover it and the search turns away from each of them |
| `Cidr.SearchIsScan` | geoip_lookup.c:152-174 | on a sorted table of disjoint ranges the halving search finds what a scan finds, for every address |
| `Cidr.PrefixTable` | geoip_lookup.c:80-88 | a table of prefixes sorted by start is disjoint as soon as no range lies inside another |
| `Cidr.NestedMisses` | geoip_lookup.c:152-174 | for every range inside another, in a table of the two, the addresses of the outer one after the inner one are missed |
| `Cidr.LookupMatches` | geoip_lookup.c:152-174 | on a sorted table of prefixes, none inside another, the search stops at an entry if and only if the firewall test matches the address with the prefix of that entry |
| `ConsultCache.Cache.Lookup` | api_server.c:186-206 | the verdict of the first live slot with the key, none while disabled |
| `ConsultCache.Cache.Store` | api_server.c:208-227 | the first slot on the probe path with the key or no longer live is overwritten |
| `ConsultCache.Cache.Consult` | api_server.c:773-800 | lookup, and on a miss the store |
| `ConsultCache.StepRefines` | api_server.c:186-227 | one consult gives the answer a map with expiry times gives, and the array still refines the map, which loses a store exactly when every slot is live |
| `ConsultCache.HitsAreLastStores` | api_server.c:773-800 | over every run with a clock that never goes back: a consult is answered from the cache if and only if the last store for its key had room and is younger than its TTL, and then with the verdict stored |
| `ConsultCache.Serve` | api_server.c:166-227 | any run of requests on the array, the setting made before each: with a clock that never goes back every answer is the one the map gives |
| `ConsultCache.OneLiveSlot` | api_server.c:208-227 | at every moment at most one live slot per key |
| `ConsultCache.StoreDuplicatesExactly` | api_server.c:208-227 | a store leaves two live slots for its key, where there was at most one, if and only if a slot that is no longer live comes before the live one on the probe path |
| `ConsultCache.StoreWithoutMiss` | api_server.c:208-227 | after a run of two consults a further store that no lookup preceded does so |

## Left out

- Weak memory ordering and the lifetime of pointers: atomics are sequentially consistent steps, string views are values.
- Timestamp.ParseTimestamp: the fields of a time stamp are unbounded numbers; past the range of a C int the additions of the code are undefined.
- Timestamp.ParseOfRender: for the same reason, years past the range of a C int are read as they stand.
- ParserLoop.ParseLogLine: status and byte counts past the range of a C int or long are unbounded numbers.
- SpmcQueue.QueueSafety: the two pointers of a slot are copied start first, one memory operation each.
- The sshd and sudo line parsers (parser.c:217-441): parameters of the parser model, so the round trip is stated for lines that mention neither.
- Parser.ParsedWithoutTime: that these two parsers fill in no response time, as in the source, is a condition on the parameters.
- `Sha256Stream.Transform` stands for both block functions, which have the same text in crypto_utils.c and logger.c.
- Key-derivation parsing and verification, and wiping of buffers, in crypto_utils.c.
- Forced replacement of a slot after 200 probes (ip_map.c:79-118): a call that exhausts its probes ends without a slot.
- AlertRing.RingSafety: for at most 2^32 - 4096 producers, the range of the counters.
- AlertRows.RowExactly: filling a slot is one step and so is copying it to a row; a row that mixes the fields of two alerts is not modelled.
- Eviction.AddressMap.EvictLru: run alone; its claims and second looks always succeed then. `qsort` is used only through its promise to sort.
- Splitter.SplitIsLossless: for a file that does not change meanwhile; in follow mode a last line without newline can be torn.
- Stats.WeightedScore: the rule points are an input and rounding is not modelled; addresses that share a pool slot are covered, since the histories are arbitrary.
- ScoreRuns.DetectorTopExactly: the counters are free apart from one request in the window and a share of errors between 0 and 1, and so are the rule points, so a scored sample may go unlearnt.
- The decision of adaptive_check_boost and the setters of the adaptive settings: one comparison each.
- TopK.InsertAll: for scores that stay fixed; `TrackAll` is for scores that grow, each growth followed by an insertion.
- TopK.TrackAll: the workers insert one record in a hundred lines and the last of a chunk (main.c:3131-3135, main.c:3266-3269), so between insertions several scores may have grown.
- EtcdMesh.WatcherRecovers: ends before the address is validated; the message around the value is any text in which the value field comes first.
- AptGraph.AlertsOnce: without purge, which nothing in the repository calls; `AptPurge` has the runs with it.
- Payload normalisation and Shannon entropy in apt_graph.c: inputs of a call.
- Incidents.RunKeeps: for settings that do not change during the run.
- The JSON exports, risk scores and labels of incident_engine.c.
- Reading the country file and the special case of the address ::1 in ip_matches_cidr.
- ConsultCache.Cache.Consult: the clock is read once per cache call; the server answers one request at a time.
- The key hash of the consult cache: two requests with the same 64-bit key share a verdict.
- dist_risk.c, memory_pool.c, ja3 and ja4 strings, eBPF, sockets, SQLite, webhooks, the WAF and the dashboards: input and output, foreign calls or flat code.
