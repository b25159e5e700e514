# NetPoke in Dafny

NetPoke measures network paths: a server sends probes over WebRTC, reads ICMP errors off a raw socket,
and keeps statistics on what comes back. This project models the parts of it that carry state or
arithmetic across many steps, and proves what they keep.

| file | component |
|---|---|
| `Bytes.dfy` | fixed-width integers, byte encodings, filtering |
| `Checksum.dfy` | UDP checksums for IPv4 and IPv6 against RFC 768 and RFC 1071 |
| `IcmpParser.dfy` | parsers of ICMP and ICMPv6 errors against the wire formats |
| `PacketTracker.dfy`, `TrackerRuns.dfy` | the tracker object, and every interleaving of what shares it |
| `StatsCall.dfy` | what a statistics call does to the order of the event queue |
| `Correlation.dfy` | from an outgoing probe to the event for it, end to end |
| `Windows.dfy`, `ProbeLedger.dfy` | sliding windows; sent probes with their lookup map |
| `ProbeStats.dfy`, `ClockSkew.dfy` | percentiles, jitter, loss, reordering; the delay baseline under clock skew |
| `Metrics.dfy`, `Measurements.dfy` | the metrics per window; the measurement state of a session, as an object |
| `TracerouteProtocol.dfy` | starting and finishing traceroute rounds between client and server |
| `ChunkedUpload.dfy`, `UploadService.dfy` | resumable uploads: files and digests; the three endpoints |
| `UploadRuns.dfy`, `MarkRaces.dfy` | whole runs of the upload service; overlapping requests for one file |
| `RateLimiter.dfy` | the bandwidth limit of the iperf3 senders |
| `ClientCleanup.dfy`, `ErrorBurst.dfy` | removing a client's descendants; removing sessions on ICMP errors |
| `ErrorRuns.dfy` | the tracker and the removal of sessions together |
| `PcapFile.dfy`, `RingBuffers.dfy` | the pcap writer with a reader; the two ring buffers |
| `SurveyId.dfy` | survey session IDs |

`dafny verify dfyconfig.toml` checks everything.

Clocks, randomness, the network and hash functions are parameters. Code that works by updating fields or
looping is written as classes and loops, and each method is tied to a specification function or to a
record of what has happened; the results are lemmas about those.

## What the code does that its comments do not say

- The doc comment on `match_icmp_error` lists payload and length fallbacks; the code matches by checksum key
  only, and so does the model.
- The ICMPv6 parser classes type 2 (packet too big) as TTL expiry and type 3 (time exceeded) as ignored,
  although its comment calls type 3 time exceeded. The model follows the code. The class only decides whether
  an unmatched error reaches the error callback.
- `parse_icmp_error` accepts a quoted header length below the legal minimum of five words
  (`AcceptanceV4`, `AcceptsShortHeader`).
- The tracked IP length is added up in 16 bits. It is exact exactly when the sum fits (`TrackedIpLength`);
  beyond that a release build wraps, which is what the model does, and a debug build stops.
- The baseline comment says outlier detection works under clock skew. It does exactly as long as no delay
  falls between two thresholds (`SkewIsAbsorbedExactlyWithoutStraddling`, `SkewCanChangeTheBaseline`).
- The comment calls the baseline an exponential moving average. It is the plain mean of the delays taken in
  (`TakeIntoBaseline`, `BaselineWithinDelays`).
- A statistics call on the tracker can reorder the event queue: it keeps the order exactly when no event
  arrives before one that is still to be put back (`StatsCallKeepsOrderExactly`, `StatsCallCanReorder`).
- An empty chunk past the end of a file moves its high-water mark but not the file
  (`MarkIsLengthExactly`, `EmptyChunkMovesOnlyTheMark`).
- A finalized upload can differ from the original by appended data, in one exact case
  (`VerifiedYetDifferent`, `AppendedByteVerifies`).
- The sizes announced when a recording is first prepared stay, whatever is announced later. An honest upload
  completes exactly if they allow for as many chunks as the files have and the earlier files hold nothing
  beyond the originals within them (`OriginalMatchesExactly`, `HonestRunCompletes`, `SmallerSizeFirstFails`).
- A recording prepared for another session than its own finds no files there and has its marks set to zero
  (`PrepareUpload`, `OtherSessionLosesTheMark`).
- The two halves of a prepare and of a chunk can overlap. The mark can then stay behind the file, and does so
  except in one exact case (`MarkedExactly`, `OverlapLeavesMarkBehind`).
- A chunk is accepted whatever the recording's status. Chunks that come after finalizing can change a complete
  recording, and do so except in one exact case (`LateChunksKeepAgreementExactly`,
  `LateChunkChangesComplete`).
- A window that holds both the lowest and the highest 64-bit sequence number reports no loss, since the spread
  wraps to zero (`LossIsShareOfMissing`, `FullRangeHidesLoss`).
- An ICMP error counts against the session from its first repeat on, since only the first finds the packet
  (`RepeatedErrorEndsTheSession`).
- A magic key with an underscore may log in and still never hold a valid session (`IssuedSessionUsable`,
  `SessionNeverValid`).
- `cleanup_client_handler` asks for the write lock while its read guard is still alive. The model covers the
  deletion set and the removal from the map, not progress past that point.

## Model

| member | source | states |
|---|---|---|
| Checksum.AccumulateWords | server/src/tracking_channel.rs:103-109 | the wrapping 32-bit accumulator never wraps for data up to 131072 bytes: it holds the exact word sum |
| Checksum.FoldCarries | server/src/tracking_channel.rs:111-114 | the fold loop terminates in the one's-complement residue of the sum, which is 0 only for 0 |
| Checksum.FoldedChecksum | server/src/tracking_channel.rs:98-126 | never 0, and equal to the reference that adds with end-around carry at every word |
| Checksum.CalculateUdpChecksumV4 | server/src/tracking_channel.rs:70-127 | never 0, so every probe is indexed; whenever the length fits 16 bits, the one value that brings addresses, protocol 17, twice the length, ports and payload to a multiple of 65535, which is the RFC 768 checksum |
| Checksum.CalculateUdpChecksumV6 | server/src/tracking_channel.rs:139-195 | the same with the IPv6 pseudo-header |
| Checksum.CoveredSumV4 | server/src/tracking_channel.rs:77-101 | what is summed up, field by field: every byte of the addresses and the payload by its place, 17, the length twice, both ports |
| Checksum.CoveredSumV6 | server/src/tracking_channel.rs:146-170 | the same with the upper half of the 32-bit length |
| Checksum.SumWeighsBytes | server/src/tracking_channel.rs:103-109 | a byte counts 256-fold in an even place and once in an odd one, also in data of odd length |
| Checksum.OnlyChecksum | server/src/tracking_channel.rs:111-126 | no two non-zero checksums fit the same fields |
| Checksum.SampleChecksum | server/src/tracking_channel.rs:70-127 | the checksum of a concrete datagram |
| Checksum.ReceiverAcceptsV4 | server/src/tracking_channel.rs:77-126 | pseudo-header and datagram with the checksum filled in sum to 0xFFFF, for every datagram |
| Checksum.ReceiverAcceptsV6 | server/src/tracking_channel.rs:146-194 | the same over IPv6 |
| Checksum.CollisionLaw | server/src/tracking_channel.rs:103-126 | two inputs share a checksum exactly when their word sums agree modulo 65535 |
| Checksum.PermutationBlind | server/src/tracking_channel.rs:103-126 | reordering aligned words never changes the checksum |
| Checksum.OneWordChange | server/src/tracking_channel.rs:103-126 | changing one word changes the checksum, except exactly between 0x0000 and 0xFFFF |
| Checksum.PayloadCollision | server/src/tracking_channel.rs:77-126 | on one flow, two payloads collide exactly when their own word sums agree modulo 65535 |
| IcmpParser.ParsesEveryErrorV4 | server/src/icmp_listener.rs:161-279 | every well-formed ICMP error, with any quoted header length, is parsed to its class and exactly what it quotes |
| IcmpParser.AcceptsOnlyErrorsV4 | server/src/icmp_listener.rs:175-230 | an accepted packet with a legal header length decomposes into a well-formed error that encodes to it |
| IcmpParser.AcceptanceV4 | server/src/icmp_listener.rs:175-230 | the well-formed errors are exactly the accepted packets with a quoted header of at least five words |
| IcmpParser.AcceptsShortHeader | server/src/icmp_listener.rs:208-230 | a concrete kind of packet with a shorter header that is accepted all the same |
| IcmpParser.ParsesEveryErrorV6 | server/src/icmp_listener.rs:290-417 | every well-formed ICMPv6 error is parsed to its class and exactly what it quotes |
| IcmpParser.AcceptsOnlyErrorsV6 | server/src/icmp_listener.rs:303-368 | every accepted packet decomposes into a well-formed error that encodes to it |
| IcmpParser.AcceptanceV6 | server/src/icmp_listener.rs:303-368 | the accepted packets are exactly the well-formed errors |
| IcmpParser.PrefixIsFirst64 | server/src/icmp_listener.rs:254-279 | of what follows the quoted UDP header, the first 64 bytes are kept |
| PacketTracker.TrackedIpLength | server/src/packet_tracker.rs:303-307 | the recorded IP length is the true one exactly when the true one fits 16 bits |
| PacketTracker.PacketTracker.ReceiveTracking | server/src/packet_tracker.rs:409-469 | stores the packet under its key unless tracking is off or the checksum is zero, and leaves the queue alone |
| PacketTracker.PacketTracker.RemoveMatch | server/src/packet_tracker.rs:262-293 | removes and returns the packet under the quoted key, or nothing |
| PacketTracker.PacketTracker.MatchIcmpError | server/src/packet_tracker.rs:250-353 | on a match the packet leaves the index and one event is queued; otherwise nothing changes, and an error goes to the callback |
| PacketTracker.PacketTracker.DrainEvents | server/src/packet_tracker.rs:360-363 | hands over the whole queue and leaves it empty |
| PacketTracker.PacketTracker.DrainEventsForConnId | server/src/packet_tracker.rs:367-394 | returns this connection's events in order and keeps all others in order |
| PacketTracker.PacketTracker.CleanupExpired | server/src/packet_tracker.rs:482-510 | removes exactly the packets whose deadline has passed |
| PacketTracker.PacketTracker.GetTrackedStats | server/src/packet_tracking_api.rs:79-95 | with nobody else at work, draining and putting back leaves the queue as it was and counts it |
| TrackerRuns.Perform | server/src/packet_tracker.rs:250-510 | the tracker's methods carry out every step of the interleaving machine |
| TrackerRuns.StepCopies | server/src/packet_tracker.rs:250-510 | no step of any activity makes or loses a packet |
| TrackerRuns.EveryPacketInExactlyOnePlace | server/src/packet_tracker.rs:250-510 | in every interleaving each indexed packet is in exactly one place: index, being matched, queue, held by a statistics call, delivered, expired, overwritten |
| TrackerRuns.NoPacketDeliveredTwice | server/src/packet_tracker.rs:250-394 | in every interleaving no packet yields two delivered events |
| TrackerRuns.DeliveriesAreTruthful | server/src/packet_tracker.rs:309-321 | every delivered event carries the data of a packet that was tracked and goes to that packet's connection |
| TrackerRuns.LeavesIndexExactlyWhenEvicted | server/src/packet_tracker.rs:262-510 | an indexed packet leaves the index exactly at an equal key, an error quoting its key, or a clean-up past its deadline |
| TrackerRuns.StaysIndexed | server/src/packet_tracker.rs:402-510 | any amount of other traffic leaves a packet indexed |
| StatsCall.StatsCallKeepsOrderExactly | server/src/packet_tracking_api.rs:79-95 | from every reachable state and for every schedule of the call's put-backs among anything that takes nothing from the queue: the queue ends as the merge the schedule makes of the old events and the arrivals, and it is the old queue followed by the arrivals exactly when no arrival precedes a put-back |
| StatsCall.StatsCallCanReorder | server/src/packet_tracking_api.rs:79-95 | a concrete run from the start in which an event that arrives between two put-backs ends up between them |
| Correlation.TrackUdpPacket | server/src/tracking_channel.rs:200-324 | a non-empty probe is always admitted, and recorded with the checksum and length it has on the wire |
| Correlation.ParsedErrorReportsV4 | server/src/icmp_listener.rs:217-279 | any error that quotes a probe yields exactly the key the probe is stored under |
| Correlation.ParsedErrorReportsV6 | server/src/icmp_listener.rs:356-417 | the same over IPv6 |
| Correlation.ErrorFindsItsProbeV4 | server/src/packet_tracker.rs:250-510 | end to end in every reachable state: after tracking a probe and any traffic but an equal key, an error on that key or a clean-up five seconds later, an error quoting it removes that packet alone; when its match ends, after any steps of others, one event with the probe's connection, TTL and data is queued |
| Correlation.ErrorFindsItsProbeV6 | server/src/packet_tracker.rs:250-510 | the same over IPv6 |
| Correlation.MatchIsQueued | server/src/packet_tracker.rs:310-331 | whatever steps come between, ending a match queues the event it was started with; once it has ended, one of them has |
| Correlation.EndedByAStep | server/src/packet_tracker.rs:310-331 | a match that is no longer under way was ended at one of the steps, and that step put its event at the end of the queue |
| Correlation.KeyCollision | server/src/packet_tracker.rs:96-103 | probes of one flow and length share a key exactly when their payload sums agree modulo 65535 |
| Correlation.WrongProbeOnlyOnCollision | server/src/packet_tracker.rs:447-461 | of two such probes, with any traffic between and after them that leaves the found one alone, an error quoting the first finds the second exactly on a collision, and otherwise the first |
| Windows.PruneFront | server/src/measurements.rs:1123-1131 | the pop loop removes the stale front and nothing else |
| Windows.PruningIsInvisible | server/src/measurements.rs:180-211 | a window read no earlier than any arrival shows what the full history since the last clear would show, whatever the order of stamps |
| Windows.InvisibleExactlyForwards | server/src/measurements.rs:231-239 | pruning is invisible to every queue exactly when the reading cutoff is not before the pruning cutoff |
| Windows.DequeIsRecentHistory | server/src/measurements.rs:196-211 | with a forward clock the deque is exactly the retained part of the history |
| ProbeLedger.Issue | server/src/measurements.rs:39-60 | issues the next number and pops deque and map together |
| ProbeLedger.AlwaysAgrees | server/src/measurements.rs:39-60 | any interleaving of sends and clears keeps the numbers rising and the map equal to the deque |
| ProbeLedger.LookupIsSearch | server/src/measurements.rs:166-167 | in every reachable state the map lookup is the linear search it replaces |
| ProbeLedger.EchoRecognisedExactly | server/src/measurements.rs:49-58 | with a forward clock, after any sends and clears, an echo is recognised exactly when its probe was sent since the last clear and no more than a minute before the last send, however late the echo comes |
| ProbeStats.PercentilesAreRanks | server/src/measurements.rs:1318-1355 | min, p50, p99 and max are values of the window, in order, bound it and have their rank in it; all are zero for an empty window |
| ProbeStats.CollectJitters | server/src/measurements.rs:1332-1342 | the loop yields the absolute differences of consecutive delays |
| ProbeStats.LossIsShareOfMissing | server/src/measurements.rs:1357-1366 | for every window, loss is the share of missing numbers exactly when no number arrived twice and the spread fits 64 bits, or none is missing |
| ProbeStats.FullRangeHidesLoss | server/src/measurements.rs:1357-1366 | a concrete window: the lowest and the highest number received, all others missing, and no loss reported |
| ProbeStats.LossBounds | server/src/measurements.rs:1357-1366 | loss is at least 0 and below 100, always |
| ProbeStats.CountReorders | server/src/measurements.rs:1368-1376 | the running maximum counts exactly the arrivals that come after a larger number |
| ProbeStats.ReorderBounds | client/src/lib.rs:1386-1399 | the reorder rate is below 100 and zero exactly when arrivals are nondecreasing |
| ProbeStats.CalculateStats | client/src/lib.rs:1305-1410 | client and server report on the last second's probes, field by field: their number, the loss among their numbers under its exact condition, the share that came late, and the ranks of the differences between consecutive delays and of the distances from the baseline |
| ProbeStats.OneMoreRecent | server/src/measurements.rs:1288-1296 | a probe is among them exactly if it came no more than 1000 ms before |
| ProbeStats.DeviationAt | server/src/measurements.rs:1308-1316 | a distance from the baseline is arrival less sending, less the baseline |
| ProbeStats.JitterAt | server/src/measurements.rs:1332-1342 | a difference is how much longer one probe took than its neighbour |
| ClockSkew.TakeIntoBaseline | server/src/measurements.rs:1099-1117 | the baseline stays as it is exactly for an outlier, said of the sums without division; any other delay counts once and moves the mean by its share of the distance |
| ClockSkew.BaselineWithinDelays | server/src/measurements.rs:1099-1117 | over any run the baseline lies between any bounds on the delays, whatever was rejected |
| ClockSkew.SampleMovesBaselineLittle | server/src/measurements.rs:1109-1117 | from ten samples on, one more moves the baseline by less than its share of the threshold |
| ClockSkew.SkewIsAbsorbedExactlyWithoutStraddling | server/src/measurements.rs:1099-1117 | under a constant clock offset the baseline follows at every point of a run exactly when no delay falls between the two thresholds |
| ClockSkew.FirstSamplesNeverStraddle | server/src/measurements.rs:1112-1117 | the first ten samples are always taken in, so they never depend on the offset |
| ClockSkew.SkewCanChangeTheBaseline | server/src/measurements.rs:1109-1117 | a concrete run in which the offset decides whether a delay is an outlier |
| ClockSkew.SkewLeavesStatistics | server/src/measurements.rs:1302-1381 | with the baseline moved along, every statistic is unchanged; jitter, loss and reordering are unchanged in any case |
| ClockSkew.SkewLeavesReports | server/src/measurements.rs:1070-1393 | over a whole run, a constant clock offset changes nothing in any report but the baseline, unless a delay falls between the two thresholds |
| Measurements.Record | server/src/measurements.rs:1119-1148 | prunes to 2000 ms, keeps the highest number, and counts the probes of the last second and those among them that came late |
| Metrics.MeasureProbes | server/src/measurements.rs:263-299 | the average times the number of probes is the total of the delays, the variance times it the total of the squared distances from the average, and loss and reordering are as in the report; all zero without probes |
| Metrics.MeasureDirection | server/src/measurements.rs:263-325 | adds the throughput, which times the window is the window's bytes summed in 64 bits |
| Metrics.DistancesCancel | server/src/measurements.rs:271-272 | the distances from the average add up to zero |
| Metrics.ReceivedDelaysAddUp | server/src/measurements.rs:265-269 | the delays of the client's probes add up to times of arrival less times of sending |
| Metrics.OneMoreWithin | server/src/measurements.rs:252-261 | an item is in a window exactly if its stamp is no more than the window before the reading |
| Metrics.SampleWindow | server/src/measurements.rs:263-278 | two probes of 10 and 30 ms: average 20, variance 100 |
| Metrics.MeasureWindows | server/src/measurements.rs:252-372 | all three windows of a direction |
| Metrics.ViewOfHistory | server/src/measurements.rs:252-372 | in either direction, deques that keep at least the window show what the full histories since the last clear would show |
| Metrics.SkewMovesOnlyTheAverage | server/src/measurements.rs:263-299 | a constant clock offset moves a window's average delay along and changes nothing else in it |
| Measurements.MeasurementState.SendProbe | server/src/measurements.rs:39-60 | a send continues the recorded run of the probe ledger |
| Measurements.MeasurementState.SendTestProbe | server/src/measurements.rs:477-499 | the same for traceroute and MTU test probes |
| Measurements.MeasurementState.HandleProbePacket | server/src/measurements.rs:138-219 | an echo is recorded exactly when a search of the sent probes finds it, a client probe always, another connection's packet never |
| Measurements.MeasurementState.HandleBulkPacket | server/src/measurements.rs:221-243 | bulk data received continues the recorded run of its deque |
| Measurements.MeasurementState.SentBulkPacket | server/src/measurements.rs:118-134 | bulk data sent does too |
| Measurements.MeasurementState.ClearMeasurements | server/src/data_channels.rs:694-702 | forgets all traffic in both directions, keeps the test probes and the next sequence number |
| Measurements.MeasurementState.StartServerTraffic | server/src/data_channels.rs:473-516 | for this connection only: activates traffic, clears, and resets the metrics |
| Measurements.MeasurementState.StopTraceroute | server/src/data_channels.rs:674-710 | for this connection only: sets the stop flag, clears, and resets the metrics |
| Measurements.MeasurementState.StartProbeStreams | server/src/data_channels.rs:559-611 | for this connection only: activates the streams, notes when and for how long, and starts numbers, history, baseline, feedback and reported statistics afresh |
| Measurements.MeasurementState.SendMeasurementProbe | server/src/measurements.rs:1005-1034 | issues the next number exactly while the streams are active and their time is not up, with feedback whose highest number is that of all probes received since they were started; otherwise the streams are stopped |
| Measurements.MeasurementState.HandleMeasurementProbe | server/src/measurements.rs:1070-1150 | the feedback is that of the full history since the streams were started: its highest number, how many came in the last second and how many of those late; the baseline is that of all delays since then |
| Measurements.MeasurementState.CalculateMetrics | server/src/measurements.rs:245-376 | both directions over 1, 10 and 60 seconds are those of the full histories since the last clear, with every figure what it says of them; echoes are taken by the client's stamps, in any order |
| Measurements.EchoDelaysAddUp | server/src/measurements.rs:334-341 | the delays of the server's probes add up to the client's stamps less times of sending |
| Measurements.MeasurementState.CalculateProbeStreamStats | server/src/measurements.rs:1285-1393 | the report equals, and describes field by field, the full history since the streams were started |
| Measurements.MeasurementState.ReportProbeStats | server/src/measurements.rs:1153-1273 | reports exactly while the streams are active, the channel is open and the time is not up, and otherwise stops the streams; the report is the one over the full history and the client's last since the streams were started |
| TracerouteProtocol.RunBalances | server/src/measurements.rs:426-603 | in every run, for both kinds of round, started = done + asked for + running + being reported + lost, and what is lost stays lost |
| TracerouteProtocol.SubtractionNeverUnderflows | client/src/lib.rs:970-982 | in every reachable state `started - done` is safe and counts the rounds not yet reported |
| TracerouteProtocol.NothingLostWithoutFault | server/src/data_channels.rs:350-411 | parties that agree on the connection's name lose nothing unless a send fails, a round aborts or the channel closes |
| TracerouteProtocol.WrongNameRunsNothing | server/src/data_channels.rs:351-357 | a server that knows the connection by another name never runs a round for it |
| TracerouteProtocol.LostRoundsStayActive | client/src/lib.rs:970-982 | a lost round counts as active for good |
| TracerouteProtocol.UnsentRoundStaysActive | client/src/webrtc.rs:704-743 | a round is counted before it is sent, so one that could not be sent counts as active for good |
| TracerouteProtocol.EveryRoundFinishes | client/src/lib.rs:970-982 | progress from every reachable state, whatever faults there were: once agreeing parties take all requests, end all rounds and take all replies, both channels are empty and every round is done but those already lost |
| TracerouteProtocol.HealthyRoundsFinish | client/src/lib.rs:1073-1083 | without faults every started round is then done |
| TracerouteProtocol.ClientStartsExactly | client/src/webrtc.rs:704-743 | a start counts for its kind alone, sent or not, and a sent request comes last |
| TracerouteProtocol.ServerTakesExactly | server/src/data_channels.rs:350-411 | a request for this connection starts one round of its kind, any other none |
| TracerouteProtocol.RoundEndsExactly | server/src/measurements.rs:426-603 | a reported round is one fewer running and its report comes last |
| TracerouteProtocol.UnreportedExactly | server/src/measurements.rs:426-603 | an aborted or unreported round is lost |
| TracerouteProtocol.ClientTakesExactly | client/src/measurements.rs:493-521 | an accepted report is one round of its kind done, one naming another connection none |
| TracerouteProtocol.WaitForRounds | client/src/lib.rs:970-982 | the waiting loop ends after at most eleven reads, and earlier exactly when fewer than the limit are active |
| TracerouteProtocol.TotalActive | client/src/lib.rs:1073-1083 | the sum over live connections is zero exactly when each has had all its rounds reported |
| ChunkedUpload.FileChecksums | server/src/upload_utils.rs:38-62 | reading a buffer at a time yields, per chunk, its digest or nothing past the end |
| ChunkedUpload.PresentIsChunks | server/src/upload_api.rs:624-641 | dropping the missing entries leaves the digests of the chunks that hold data |
| ChunkedUpload.VerifiesExactlyOnPrefix | server/src/upload_utils.rs:74-80 | without collisions among the inputs compared and whatever size was recorded, a file verifies exactly when it agrees with the original over the chunks of that size |
| ChunkedUpload.OriginalVerifiesExactly | server/src/upload_utils.rs:38-80 | the original itself verifies exactly when it was recorded with at least as many chunks as it has |
| ChunkedUpload.VerifiedYetDifferent | server/src/upload_utils.rs:47-59 | a verified file differs from the original exactly when the original fills the recorded chunks and the file has something appended |
| ChunkedUpload.AppendedByteVerifies | server/src/upload_utils.rs:47-59 | a concrete case, for every digest: a byte appended to an empty file |
| ChunkedUpload.ResumedUploadCompletes | server/src/upload_api.rs:472-546 | any order with repeats over any earlier file: if each chunk is uploaded or was right, the result is the original plus the earlier file's excess |
| UploadService.MarkIsLengthExactly | server/src/upload_api.rs:521-546 | after any run of chunks the high-water mark is the file's length exactly when no empty chunk was sent for an offset past the farthest end of the chunks that hold data |
| UploadService.LengthIsReach | server/src/upload_api.rs:472-509 | the file's length after any run of chunks is the farthest end of those that hold data |
| UploadService.ContentAfterWrites | server/src/upload_api.rs:472-509 | each byte of the file after any run of chunks is the last written to it, else what was there, else zero |
| UploadService.EmptyChunkMovesOnlyTheMark | server/src/upload_api.rs:521-546 | a concrete case: one empty chunk sent for the second place of an empty file |
| UploadService.UploadService.UploadChunk | server/src/upload_api.rs:377-560 | accepted exactly for a known file type, a matching checksum and a known recording, whatever its status; otherwise nothing changes |
| UploadService.UploadService.PrepareUpload | server/src/upload_api.rs:94-302 | refused exactly for an unknown session; a new recording starts empty, a known one keeps its files, sizes and status, and its marks become the lengths exactly if the session is its own or the file is empty; the reply lists the chunks found |
| UploadService.UploadService.FinalizeUpload | server/src/upload_api.rs:593-717 | complete exactly when both files match, otherwise failed |
| UploadService.HonestUploadMatches | server/src/upload_api.rs:472-664 | an honest upload in any order over any file ends with the original, followed by what the file had beyond it, and the mark at its length; the checksum matches exactly if the recorded size and the earlier content allow it |
| UploadService.ResumeMatches | server/src/upload_api.rs:191-230 | skipping the chunks reported as matching, for any announced size, ends with the same content and a match under the same condition |
| UploadService.MatchMeansSameContent | server/src/upload_api.rs:624-664 | whatever size was announced, a matching checksum says that the file is the original over the recorded chunks, and the other way round |
| UploadService.OriginalMatchesExactly | server/src/upload_api.rs:607-664 | a file that is the original matches exactly when it was recorded with at least as many chunks |
| UploadRuns.HonestRunCompletes | server/src/upload_api.rs:94-717 | in any interleaving of prepares, finalizes, rejected chunks and other recordings' requests, over any earlier files and recorded sizes, honest chunks that cover what was missing leave the originals and what was beyond them, and finalizing completes exactly if sizes and earlier content allow it; the marks follow unless another session prepares |
| UploadRuns.FirstUploadCompletes | server/src/upload_api.rs:94-717 | the same from an empty service, whatever came before the client's prepare, earlier prepares with other sizes included |
| UploadRuns.SizesAnnouncedFirst | server/src/upload_api.rs:262-302 | in every run a recording has the session and the sizes of the prepare that came first |
| UploadRuns.NewUploadCompletes | server/src/upload_api.rs:94-717 | a recording not prepared before, with true sizes and each chunk arrived: complete, with both files and marks right |
| UploadRuns.SmallerSizeFirstFails | server/src/upload_api.rs:262-302 | a concrete run: prepared with size 0, then with the true size 1, uploaded and finalized, it fails for every digest that tells the two hashes apart |
| UploadRuns.OtherSessionLosesTheMark | server/src/upload_api.rs:168-302 | a concrete run in which preparing for another session sets the mark of an uploaded file to zero |
| UploadRuns.ResumedUploadFinishes | server/src/upload_api.rs:191-302 | from any state, for any session and announced sizes: preparing and sending only the chunks not reported with the client's own digest has the same outcome as sending all |
| UploadRuns.CompleteExactly | server/src/upload_api.rs:624-717 | in every run from an empty service, a recording is complete exactly when its last finalize found both files matching |
| UploadRuns.FinalizeCompletesExactly | server/src/upload_api.rs:624-717 | without collisions and whatever sizes were announced, finalizing with the originals' checksums completes exactly when both files agree with the originals over the recorded chunks |
| UploadRuns.CompleteMeansUploaded | server/src/upload_api.rs:377-717 | in every run, whatever sizes were announced, a complete recording whose last finalize announced the originals agreed with them then, and still does exactly if the chunks accepted since preserve them |
| UploadRuns.LateChunksKeepAgreementExactly | server/src/upload_api.rs:377-560 | any run of chunks accepted later keeps the agreement exactly when the last write to each byte of the original leaves it as it is and nothing is appended within the recorded chunks |
| UploadRuns.LateChunkChangesComplete | server/src/upload_api.rs:377-560 | a concrete run, for any digest, in which a complete recording is overwritten and stays complete |
| MarkRaces.ChunkInOneGo | server/src/upload_api.rs:472-546 | without anything between its two steps a chunk does what the endpoint does |
| MarkRaces.PrepareInOneGo | server/src/upload_api.rs:232-302 | likewise a prepare |
| MarkRaces.NeverAhead | server/src/upload_api.rs:232-546 | in every interleaving of prepares and chunks that hold data the mark never exceeds the length |
| MarkRaces.MarkIsLargest | server/src/upload_api.rs:273-536 | in every interleaving the mark is the largest of what was last stored and what it was raised to since |
| MarkRaces.MarkedExactly | server/src/upload_api.rs:232-546 | in every interleaving the mark is the length exactly when, since a length was last stored, the length itself was stored or raised to and nothing larger |
| MarkRaces.OverlapLeavesMarkBehind | server/src/upload_api.rs:232-546 | a concrete interleaving: a chunk comes and goes inside a prepare, and the mark stays at zero |
| RateLimiter.RunSender | iperf3-server/src/session.rs:371-402 | which turns send and which are skipped; without a limit all send up to the first stop; with one, at any point at most one window's worth per second begun has been sent, also for a limit of zero, and the turns of the first second have sent what they could or as much as the limit |
| RateLimiter.SendLoop | iperf3-server/src/session.rs:371-402 | the loop: a turn is skipped exactly if its window began less than a second ago and has carried as much as the limit; the sender stops exactly when told to, late, or failing on a turn that is not skipped |
| RateLimiter.WindowIsFilled | iperf3-server/src/session.rs:383-395 | in every window a sender sends all it can until it has sent as much as the limit |
| RateLimiter.UnlimitedSendsAll | iperf3-server/src/session.rs:379-401 | without a limit every turn sends, up to the first stop |
| RateLimiter.RunTcpSender | iperf3-server/src/session.rs:356-402 | the same for a TCP sender, with an eighth of the bandwidth as its limit, or none |
| RateLimiter.RunUdpSender | iperf3-server/src/session.rs:546-593 | the same for a UDP sender, with the default bandwidth and block size |
| ClientCleanup.DeletionSet | server/src/cleanup.rs:45-59 | the loop ends with exactly the clients whose chain of parents reaches the root, for any parent graph and iteration order |
| ClientCleanup.ClientTable.CleanupClient | server/src/cleanup.rs:31-81 | unknown clients change nothing; otherwise exactly the descendants go, and no remaining client has a removed parent |
| ErrorBurst.FindSession | server/src/main.rs:622-646 | finds a session with that peer address exactly if there is one |
| ErrorBurst.SessionTable.OnUnmatchedError | server/src/main.rs:650-704 | charges one matching session and removes it at the threshold; others are untouched |
| ErrorBurst.CounterIsLongestBurst | server/src/main.rs:655-684 | in every run a session's counter is the longest burst its errors end with, and it is gone exactly when five came in a burst |
| ErrorBurst.CallbackCountsBursts | server/src/main.rs:622-704 | over every run of the callback on errors to any destinations, a session alone at its peer address is gone exactly when five errors in a row quoting that address came in a burst |
| ErrorRuns.RecordIsReported | server/src/packet_tracker.rs:332-353 | in every run of the tracker the callback is called for exactly the errors that find no packet, in order |
| ErrorRuns.SessionEndsExactly | server/src/main.rs:602-704 | tracker and callback together: a session alone at its address is gone exactly when five errors in a row that quoted it and found no packet came in a burst |
| ErrorRuns.RepeatIsReported | server/src/packet_tracker.rs:262-353 | once its packet has left the index, and until an equal key is tracked, an error is reported each time it comes |
| ErrorRuns.RepeatedErrorEndsTheSession | server/src/main.rs:602-704 | in every reachable state: after an error has taken its packet, five repeats of it in a burst end the session, and fewer do not |
| PcapFile.PacketsToPcap | server/src/packet_capture.rs:720-752 | the loop writes the header and the records one after the other |
| PcapFile.ReaderRecoversPackets | server/src/packet_capture.rs:720-752 | a libpcap reader recovers every packet in order from what was written, with its timestamps exactly when all fit 32 bits |
| PcapFile.FileSize | server/src/packet_capture.rs:720-752 | the file is 24 bytes plus 16 and the data per packet |
| RingBuffers.Push | server/src/packet_capture.rs:106-114 | appending or overwriting keeps the buffer equal to the newest items of its history |
| RingBuffers.PacketRingBuffer.AddPacket | server/src/packet_capture.rs:90-116 | extends the history by the packet and counts it |
| RingBuffers.PacketRingBuffer.GetPackets | server/src/packet_capture.rs:128-139 | the newest packets since the last clear, oldest first |
| RingBuffers.PacketRingBuffer.GetPacketsForSession | server/src/packet_capture.rs:119-125 | those of one session, in order |
| RingBuffers.PacketRingBuffer.ClearPackets | server/src/packet_capture.rs:152-158 | empties the history, not the total |
| RingBuffers.TracingBuffer.AddEntry | server/src/tracing_buffer.rs:41-71 | extends the history if enabled |
| RingBuffers.TracingBuffer.GetEntries | server/src/tracing_buffer.rs:74-97 | the newest entries since the last clear, oldest first |
| RingBuffers.TracingBuffer.ClearEntries | server/src/tracing_buffer.rs:110-114 | empties the history |
| SurveyId.DecodesIssued | server/src/auth_handlers.rs:150-163 | both decoders turn an issued ID into the key with `_` read as `-`: the key itself exactly if it has no `_` |
| SurveyId.IssuedExactly | server/src/auth_handlers.rs:325-357 | a session is issued exactly for a configured key while magic keys are enabled, in the documented form |
| SurveyId.ValidatesIssued | server/src/auth_handlers.rs:100-145 | an issued ID is valid until it times out, exactly if its decoded key is configured |
| SurveyId.IssuedSessionUsable | server/src/auth_handlers.rs:325-357 | a session issued for a configured key is ever valid exactly if the key has no `_` or its hyphenated form is configured too |
| SurveyId.SessionNeverValid | server/src/auth_handlers.rs:325-357 | with `a_b` as the only key, a session is issued for it and is never valid |
| SurveyId.DecodersAgreeOnValid | server/src/data_channels.rs:739-758 | on every ID the validator accepts both decoders agree, and on a configured key |
| SurveyId.ParsesDecimal | server/src/survey_middleware.rs:158-163 | a printed number is parsed back, with or without a plus sign, exactly if it fits 64 bits |

## Left out

- OAuth, cookies, routing, HTML and dashboard code, signalling and WASM glue: input and output without an invariant of their own.
- The vendored WebRTC, SCTP, DTLS and ICE crates; the control channel is taken to be reliable and ordered until it closes.
- Sockets, libpcap capture, FFI pointers, logging, configuration defaults, SQL text, file paths and HTTP headers; a recording row and its two files stand for the database and the file system.
- Wiping a session, which deletes its recordings and their files, and files put there by anything but the service.
- UploadRuns.HonestRunCompletes: requests are served one at a time. `MarkRaces` covers what overlapping prepares and chunks do to the mark; a finalize that reads a file while a chunk is being written is not covered.
- SHA-256 itself: digests are a parameter of fixed width. Freedom from collisions is assumed only of the inputs compared, since no fixed-width function is free of them on all inputs.
- IEEE rounding: statistics are over exact reals, and the chunk count is integer ceiling division, which it equals for sizes below 2^53.
- The square root that turns a window's variance into the jitter shown, and the running total of bulk bytes sent, which nothing reads.
- The moment between reading the deques and storing the metrics, in which a reset of the metrics could be overwritten.
- The client's own per-window metrics, which take the absolute value of delays and count descents between neighbours instead of arrivals after a larger number.
- The echo of a test probe that carries a TTL, which only sets the path TTL.
- 64-bit overflow of sequence numbers, byte counters and chunk offsets; the one such overflow a peer can bring about, in the spread of received sequence numbers, is modelled.
- Concurrency in the ICMP error callback and between clean-up requests: errors are charged one at a time, and the closure and the removal act on one map.
- The limit on concurrent iperf3 sessions, keylog storage, byte ranges, SDP filtering and the address cache: easier, and independent of the above.
- Checksum.CalculateUdpChecksumV4: for a payload whose datagram does not fit 16 bits of length, which UDP cannot carry, only that the result is not zero.
- Checksum.CalculateUdpChecksumV6: the same restriction as for IPv4.
- PcapFile.ReaderRecoversPackets: for packets shorter than 4 GiB, since a longer one has its length cut to 32 bits and cannot be read back; the snapshot length is a 32-bit integer.
- Correlation.ErrorFindsItsProbeV4: the outer IP header is taken to be 20 bytes, as the parser does.
