# Verified model of the voipswitch core

A Dafny 4.11 model of the stateful and text-transforming core of the PBX, with its whole-run properties proved.
Check it with `dafny verify dfyconfig.toml`.

The source changes most of its state in place, so most entities appear twice: as a value with a function per operation
(the specification, on which the lemmas are proved), and as a class whose methods follow the source statement by
statement and are proved equal to those functions. Whole runs are sequences of steps over the values.

- **Fast path** (`FastPathTypes`, `FastPathController`, `FastPathRuntime`, `FastPathRuns`, `FastPathFlows`,
  `FastPathRoutes`): the call's runtime (generation, active generation, blocked, stopped, history, statistics) and the
  shared eBPF controller (bridge table and kernel flow map). Every map operation may fail at any position, kernel
  packets and work of other calls interleave. A failed map removal still drops the table entry, so the linking
  invariant says that a table entry belongs to the active generation, not that an active generation has a table entry.
  The flows left behind are exactly those whose removal failed.
- **DTMF** (`DtmfTypes`, `DtmfLeases`, `DtmfParser`, `DtmfRuns`, `DtmfPresses`, `DtmfEviction`): capability leases
  with their suspension points, and the RFC 4733 digit parser as a timed, bounded, deduplicating machine.
- **RTP** (`Rtp`): the three header parsers, against the layout of sections 5.1 and 5.3.1 of RFC 3550.
- **Recording** (`Recording`): placing samples by wrapping 32-bit timestamps and writing the stereo WAV file, to the
  byte.
- **SDP** (`Text`, `TextMeaning`, `Sdp`, `SdpPayloads`, `SdpRewrite`, `SdpRoundTrip`, `SdpTheorems`, `SdpMeaning`,
  `SdpWithoutRtcp`): parsing and rewriting of session descriptions, on characters, with lines, words, decimal numbers
  and dotted-quad addresses proved to read back. `SdpMeaning` and `SdpPayloads` say as relations what a description
  means, and prove that the parser accepts and reports exactly that. The text form of IPv6 addresses is a parameter
  that is assumed to read back.
- **Call aggregate** (`CallAggregates`, `CallRuns`, `CallSteps`): attempts, winner, bridges, roles and coordinator of
  one call.
- **AI outbox** (`Outbox`, `OutboxEffects`, `OutboxProtocol`, `OutboxReplay`): the durable record, the write-once
  result table and the hand-off between them, with crashes between any two durable writes.
- **Data store** (`CdrPaging`, `CdrPages`, `RecordingCleanup`, `CleanupOrder`): paging over per-domain tables, retention
  and quota clean-up.
- `Prelude` and `Ordering` hold shared vocabulary and the theory of sorting.

Results that are sharper than what one would expect from the code's comments:

- An attempt can be `Selected` without being the winner, because the attempt update accepts Answered to Selected. A
  run keeps "only the winner is Selected" exactly if it has no such update (`CallRuns.OnlyWinnerOnEveryRun`), and
  `CallRuns.TwoSelectedReachable` reaches two selected attempts from a new call.
- Persisting an AI result never collides as long as no job is appended again after its record was deleted. If one is,
  it collides exactly if its new row differs from the deleted record's (`OutboxProtocol.ReappendedCollides`);
  `OutboxProtocol.TwoLivesCollide` is the run from the empty system. `OutboxProtocol.RowIsStable` shows that safety
  relies on the recorded arrival time.
- A single stored completion of version zero, or a failing read or write, aborts a whole replay: the records before it
  are handed off, the rest are untouched (`OutboxReplay.ReplayPending`, `OutboxReplay.ReplayCompletes`).
  `OutboxReplay.VersionZeroReachable` stores such a completion.
- A record written before arrival times were recorded can collide with its own row: after an interrupted hand-off, a
  repeated completion collides exactly if it comes at another update time (`OutboxProtocol.LegacyCollides`).
- Two completions of a digit are at least two seconds apart unless its key was evicted or the parser reconfigured in
  between (`DtmfRuns.DigitsSpaced`). Eviction takes 32 entries and hits the oldest key
  (`DtmfRuns.EvictionNeedsFullState`), and then the same end packet completes the digit again at once
  (`DtmfEviction.EvictedCompletesAgain`). `DtmfEviction.EndCompletesExactly` says when a retransmission is reported.
- The recording keeps every packet at its timestamp's place exactly if each packet follows its predecessor: it starts
  at most 40000 samples after the predecessor's end and does not end before it (`Recording.AlignedOnEveryRun`).
- The rewritten session description parses exactly if the relay's RTP port is not zero (`SdpTheorems.RoundTrip`).
- For a relay without an RTCP address only the first RTCP attribute is removed: with a second one, that is what the
  rewritten description says, and rewriting it again gives another text (`SdpWithoutRtcp.RoundTripWithoutRtcp`,
  `SdpWithoutRtcp.RewritingAgainWithoutRtcp`).

## Model

| member | source | states |
|---|---|---|
| FastPathController.EbpfFastPathController.Promote | crates/voipswitchd/src/runtime/fastpath.rs:208-246 | inserting the flows in order; a failed insertion rolls back what can be removed, and the table gets the entry only on full success |
| FastPathController.EbpfFastPathController.Remove | crates/voipswitchd/src/runtime/fastpath.rs:105-170 | reads and removes each flow, drops the table entry even when a removal failed, and answers the statistics only if all succeeded |
| FastPathController.EbpfFastPathController.Snapshot | crates/voipswitchd/src/runtime/fastpath.rs:172-201 | sums the counters of all flows of the generation, or the first failure, and changes nothing |
| FastPathRuntime.FastPathRuntime.BlockForUserspaceCapability | crates/voipswitchd/src/runtime/media.rs:1162-1194 | the new runtime and controller state and the answer of a block |
| FastPathRuntime.FastPathRuntime.Promote | crates/voipswitchd/src/runtime/media.rs:1196-1217 | the new state of a promotion, including every refusal; FastPathRoutes.PromotedExactly says where the media then goes |
| FastPathRuntime.FastPathRuntime.PromoteLocked | crates/voipswitchd/src/runtime/media.rs:1275-1307 | no installation when blocked or without a bridge; the generation only advances on success |
| FastPathRuntime.FastPathRuntime.ConfirmRebind | crates/voipswitchd/src/runtime/media.rs:1219-1273 | the moved endpoint, the demotion of the old generation and the installation of the new one; FastPathRoutes.ReboundExactly says where the media then goes |
| FastPathRuntime.FastPathRuntime.CheckRedirectHealth | crates/voipswitchd/src/runtime/media.rs:1309-1347 | the new state of a health check; FastPathRoutes.HealthExactly says when it demotes |
| FastPathRuntime.FastPathRuntime.DemoteAndBlockLocked | crates/voipswitchd/src/runtime/media.rs:1349-1388 | only the active generation is demoted; a failed demotion still blocks |
| FastPathRuntime.FastPathRuntime.Stop | crates/voipswitchd/src/runtime/media.rs:1390-1408 | the final statistics and history, and the stopped state |
| FastPathRuntime.FastPathRuntime.StopWithoutLog | crates/voipswitchd/src/runtime/media.rs:1410-1421 | teardown by drop, once, with the collected statistics lost |
| FastPathRuns.PromoteEffect | crates/voipswitchd/src/runtime/fastpath.rs:208-246 | a successful promotion leaves exactly its flows with zero counters, a failed one leaves the table as it was, and other calls' flows are untouched |
| FastPathRuns.RemoveCollects | crates/voipswitchd/src/runtime/fastpath.rs:124-169 | per flow, removal collects the kernel's count or nothing, and all of it without faults |
| FastPathRuns.ApplyGood | crates/voipswitchd/src/runtime/media.rs:1162-1421 | every step of the runtime, the kernel or another call keeps the linking invariant |
| FastPathRuns.LinkedOnEveryRun | crates/voipswitchd/src/runtime/media.rs:1162-1421 | on every run, with any map failures, a table entry has the active generation, and the controller never answers bridge_exists or stale_generation |
| FastPathRuns.SilencedOnEveryRun | crates/voipswitchd/src/runtime/media.rs:1275-1278 | once blocked or stopped with nothing active and no entry, every continuation stays so |
| FastPathRuns.BlockedForEver | crates/voipswitchd/src/runtime/media.rs:1162-1194 | after a successful block nothing is ever active again and the table never again has an entry |
| FastPathRuns.StoppedForEver | crates/voipswitchd/src/runtime/media.rs:1390-1421 | after stop or drop the bridge has no table entry for ever, even if removals failed |
| FastPathFlows.FlowsOnEveryRun | crates/voipswitchd/src/runtime/fastpath.rs:105-246 | on every run, whatever fails, the kernel flows on the call's ports are exactly those of the installed entry and those whose last removal failed |
| FastPathFlows.FlowsLeftBehind | crates/voipswitchd/src/runtime/fastpath.rs:124-169 | a call that starts without flows on its ports has, once blocked or stopped, exactly the flows whose removal failed; none if all removals worked, even if insertions and reads failed |
| FastPathRuns.ModeClimbs | crates/voipswitchd/src/runtime/media.rs:1196-1388 | the forwarding mode only moves userspace, fast path, mixed; two promotions imply mixed; fast path before stop implies an active generation |
| FastPathRuns.BalancedOnEveryRun | crates/voipswitchd/src/runtime/fastpath.rs:278-304 | per pair, collected statistics plus the current kernel counter never exceed the sum of the counters of all generations; while no map operation fails and no active runtime is dropped silently, the collected ones are that sum without the current counter, saturated |
| FastPathRuns.StatisticsConserved | crates/voipswitchd/src/runtime/media.rs:1390-1408 | per media kind and direction, the total stop returns is at most the sum of the kernel counters over all generations, and exactly that sum, saturated, when no map operation fails and no active runtime is dropped silently, even if counters wrap; the sum is at most the number of kernel events and equal to it while no counter wraps |
| FastPathRoutes.PromotedExactly | crates/voipswitchd/src/runtime/media.rs:1498-1537 | a call is promoted exactly if promotion is available, all four remote endpoints and both relay addresses are IPv4, nothing is stopped, blocked or active, the bridge is its own and no insertion fails; then what each party sends to its relay socket leaves the other party's relay socket for the other party, RTP and RTCP apart |
| FastPathRoutes.ReboundExactly | crates/voipswitchd/src/runtime/media.rs:1219-1273 | a moved endpoint replaces exactly itself, and the media is routed to the new endpoints exactly if they are complete and no insertion fails |
| FastPathRoutes.ReboundHistory | crates/voipswitchd/src/runtime/media.rs:1219-1273 | moving an endpoint of a promoted call marks exactly its party's direction as demoted, whatever fails |
| FastPathRoutes.MirroredOnEveryRun | crates/voipswitchd/src/runtime/media.rs:1498-1537 | on every run every installed flow has an installed reverse: its packets leave from where the reverse ones arrive, for where they come from |
| FastPathRoutes.GenerationGuards | crates/voipswitchd/src/runtime/fastpath.rs:105-201 | flows are removed and read only in their own generation: another one is answered as stale exactly then, and changes nothing |
| FastPathRoutes.HealthExactly | crates/voipswitchd/src/runtime/media.rs:1309-1347 | a promoted call stays as it is exactly if each of its flows can be read and has fewer than three redirect errors; otherwise it is blocked, has no entry, and is in user space unless a removal failed |
| DtmfLeases.DtmfCapabilities.Acquire | crates/voipswitchd/src/runtime/media.rs:790-904 | every refusal in order, the block of the fast path before the lease is granted, and the suspended state |
| DtmfLeases.DtmfCapabilities.Release | crates/voipswitchd/src/runtime/media.rs:906-964 | a collector drains before the mode falls back, others settle at once |
| DtmfLeases.DtmfCapabilities.EnableAiTap | crates/voipswitchd/src/runtime/media.rs:1119-1132 | a tap is installed only after the fast path was blocked, and once |
| DtmfLeases.DtmfCapabilities.SetMode | crates/voipswitchd/src/runtime/media.rs:1885-1897 | afterwards the side has the mode, its generation rose by one (saturating) exactly if the mode changed, and nothing else changed |
| DtmfLeases.TopModeIsHighest | crates/voipswitchd/src/runtime/media.rs:1899-1905 | the chosen mode is held by an active lease and outranked by none; transparent exactly without active leases |
| DtmfLeases.NewBridgeInv | crates/voipswitchd/src/runtime/media.rs:380-577 | a newly allocated bridge meets the lease invariant |
| DtmfLeases.LeasesOnEveryRun | crates/voipswitchd/src/runtime/media.rs:790-964 | on every run each side has at most one collector and the highest mode its active leases call for, unless it is draining, and any lease or tap means the fast path is off |
| DtmfLeases.ReleasedForEver | crates/voipswitchd/src/runtime/media.rs:906-964 | a released lease never becomes active again and keeps its id occupied |
| DtmfLeases.GenerationCountsModeChanges | crates/voipswitchd/src/runtime/media.rs:1885-1897 | every lease operation raises a side's generation by one exactly if its mode changes |
| DtmfLeases.GrantedExactly | crates/voipswitchd/src/runtime/media.rs:790-904 | a new lease is granted exactly for a session of the bridge, caller or callee, a negotiated side, a generation already reached, at most one collector, and after the block; it raises that side's parser alone to the highest mode |
| DtmfLeases.AcquireAgain | crates/voipswitchd/src/runtime/media.rs:795-818 | the same request again is answered as before, another one under its id or a released id fails, and nothing changes |
| DtmfLeases.AppliedExactly | crates/voipswitchd/src/runtime/media.rs:862-888 | a lease applied in time stays; one that timed out is withdrawn and the others of its side decide the mode |
| DtmfLeases.ReleasedExactly | crates/voipswitchd/src/runtime/media.rs:906-964 | a side that loses its last collector drains with its parser unchanged, any other has at once the mode its remaining leases call for, and the other side is untouched |
| DtmfLeases.ReleaseAgain | crates/voipswitchd/src/runtime/media.rs:906-919 | releasing a released lease answers the generation its release ended with and changes nothing |
| DtmfLeases.TapExactly | crates/voipswitchd/src/runtime/media.rs:1119-1132 | the tap goes in once, exactly if the bridge lives and the block worked, and the fast path is blocked either way |
| Rtp.EncodedParses | crates/voipswitchd/src/runtime/dtmf.rs:263-304 | parsing the bytes of any packet of RFC 3550 gives its fields and payload back |
| Rtp.AcceptedIsEncoded | crates/voipswitchd/src/runtime/dtmf.rs:263-304 | every accepted byte string is the encoding of a well-formed packet |
| Rtp.ParsersAgree | crates/voipswitchd/src/ai/media_tap.rs:175-211 | for every byte string the tap accepts what the recorder accepts with a payload, and the digit parser what the recorder accepts without an empty padding; fields and payloads are equal |
| Rtp.TtsParses | crates/voipswitchd/src/runtime/media.rs:732-737 | all parsers recover the payload of a sent text-to-speech packet, the tap only a non-empty one |
| DtmfParser.Rfc4733Parser.ObservePacket | crates/voipswitchd/src/runtime/dtmf.rs:112-176 | the new parser state and the reports of a packet |
| DtmfParser.Rfc4733Parser.Expire | crates/voipswitchd/src/runtime/dtmf.rs:178-193 | completes the due presses and forgets old completions; DtmfPresses.LostPressReported says what is reported |
| DtmfParser.Rfc4733Parser.NextDeadline | crates/voipswitchd/src/runtime/dtmf.rs:195-204 | the least deadline of an active press, none without one |
| DtmfRuns.NewParserInv | crates/voipswitchd/src/runtime/dtmf.rs:96-102 | a new parser meets the invariant, so every run from it does |
| DtmfTypes.ActiveExactly | crates/voipswitchd/src/runtime/dtmf.rs:36-55 | a configuration looks for exactly a detectable capability, unless its mode is transparent |
| DtmfRuns.BoundedOnEveryRun | crates/voipswitchd/src/runtime/dtmf.rs:104-253 | in every reachable state active and recent keys are at most 32, distinct and disjoint, recent is ordered by time, and nothing is active without a capability |
| DtmfRuns.PruneExact | crates/voipswitchd/src/runtime/dtmf.rs:245-253 | pruning forgets exactly the completions that are two seconds old |
| DtmfRuns.ExpireMeetsDeadline | crates/voipswitchd/src/runtime/dtmf.rs:178-204 | expiry completes something exactly when the next deadline has come, and leaves only later deadlines |
| DtmfRuns.EvictionNeedsFullState | crates/voipswitchd/src/runtime/dtmf.rs:112-176 | a key is evicted only from a full state, and it is the oldest |
| DtmfRuns.DigitsSpaced | crates/voipswitchd/src/runtime/dtmf.rs:215-253 | two completions of one key, over any run that neither evicts it nor reconfigures, are at least two seconds apart |
| DtmfRuns.CompletedOnce | crates/voipswitchd/src/runtime/dtmf.rs:112-193 | one step never reports a key twice |
| DtmfEviction.EndCompletesExactly | crates/voipswitchd/src/runtime/dtmf.rs:112-176 | an end packet of a key that is not pressed completes it exactly if its event is negotiated, and after expiry the key is not remembered and fewer than 32 keys are pressed |
| DtmfEviction.PressedEndCompletesExactly | crates/voipswitchd/src/runtime/dtmf.rs:112-176 | an end packet of a pressed key completes it exactly if its deadline has come or its duration does not shrink |
| DtmfEviction.EvictedCompletesAgain | crates/voipswitchd/src/runtime/dtmf.rs:150-158 | 33 packets and the run of a new parser over them: the first completes its digit, the last evicts the first key from the full state, and the first packet then completes the digit again at the same instant |
| DtmfPresses.PressReported | crates/voipswitchd/src/runtime/dtmf.rs:112-176 | a press, from its first packet over any interleaving that keeps it pressed to an end packet in time, is reported at its end only, with its digit and capped duration |
| DtmfPresses.LostPressReported | crates/voipswitchd/src/runtime/dtmf.rs:178-243 | a press whose end is lost, over any run that keeps it, is reported by the first step at or after its deadline exactly: incomplete, with its event as the digit and its longest told duration at the clock rate, at most ten seconds |
| DtmfPresses.InvalidExactly | crates/voipswitchd/src/runtime/dtmf.rs:112-176 | a packet is reported as invalid exactly if it cannot be read, is a short event packet, takes back told duration, or begins a press while 32 are held |
| Recording.ChannelWriter.WriteSilence | crates/voipswitchd/src/runtime/recording.rs:377-387 | the chunks add up to two zero bytes per sample |
| Recording.ChannelWriter.WriteGap | crates/voipswitchd/src/runtime/recording.rs:347-366 | leading silence, gap or overlap, by the wrapping timestamp difference |
| Recording.ChannelWriter.WritePacket | crates/voipswitchd/src/runtime/recording.rs:341-375 | the bytes appended, the counter and the memory for the next packet |
| Recording.WriteAll | crates/voipswitchd/src/runtime/recording.rs:341-375 | after any packets the file is the little-endian track and the counter its saturated length |
| Recording.AlignedExactly | crates/voipswitchd/src/runtime/recording.rs:347-358 | a packet keeps the file length equal to its place exactly if it starts at most 40000 samples after its predecessor's end and does not end before it |
| Recording.AlignedOnEveryRun | crates/voipswitchd/src/runtime/recording.rs:341-375 | for every packet sequence, all packets lie where their timestamps put them exactly if each starts at most 40000 samples after its predecessor's end and does not end before it |
| Recording.LengthOfTrack | crates/voipswitchd/src/runtime/recording.rs:341-375 | for continuous packets the samples written are leading silence plus timestamp steps plus the last length, through wraparound |
| Recording.TrackIsTimeline | crates/voipswitchd/src/runtime/recording.rs:341-375 | every position holds the sample of the first packet covering it, or zero |
| Recording.InterleaveWav | crates/voipswitchd/src/runtime/recording.rs:396-426 | header and frames of both raw files, or which size limit is exceeded |
| Recording.HeaderDescribesFile | crates/voipswitchd/src/runtime/recording.rs:428-445 | the header has 44 bytes: its length fields read back as the lengths of the file, and the format fields as PCM, two channels, 8000 samples and 32000 bytes a second, blocks of 4 bytes and 16 bits |
| Recording.FramesDecode | crates/voipswitchd/src/runtime/recording.rs:413-416 | frame i decodes to the two tracks' samples at i, the shorter continuing as silence |
| Recording.RecordingIsTimeline | crates/voipswitchd/src/runtime/recording.rs:341-454 | from packets to file: frame i plays, per channel, the sample of the first packet covering i, or silence |
| Text.LinesRoundTrip | crates/voipswitch-core/src/media/mod.rs:186-210 | lines written with CR LF read back as the same lines |
| Text.WordsRoundTrip | crates/voipswitch-core/src/media/mod.rs:150-152 | words joined by spaces split into the same words |
| Text.IpRoundTrip | crates/voipswitch-core/src/media/mod.rs:524-532 | a printed address parses to itself; proved for dotted quads, by assumption on the codec for IPv6 |
| Text.FullFormInverse | crates/voipswitch-core/src/media/mod.rs:553-565 | the full form of IPv6 addresses, eight groups of four hexadecimal digits, is a text form that meets the assumption |
| TextMeaning.NumberExactly | crates/voipswitch-core/src/media/mod.rs:269-271 | a text is a number exactly if it is an optional plus sign, zeros and the decimal digits of a number in range |
| TextMeaning.DottedQuadExactly | crates/voipswitch-core/src/media/mod.rs:524-532 | a text is an IPv4 address exactly if it is its dotted form without leading zeros |
| TextMeaning.SplitExactly | crates/voipswitch-core/src/media/mod.rs:428 | the parts are the texts without the separator that make up the whole when joined with it |
| TextMeaning.SplitOnceWhiteExactly | crates/voipswitch-core/src/media/mod.rs:424-426 | a text is split behind its first white space, and not at all exactly if it has none |
| TextMeaning.TrimPads | crates/voipswitch-core/src/media/mod.rs:428 | trimming takes white space away at both ends, all of it and nothing else |
| Sdp.ParseAudioPayloads | crates/voipswitch-core/src/media/mod.rs:343-421 | the loops over attribute lines and payloads compute the payload list and the telephone-event capability, or the first error |
| Sdp.ParseDtmfEventSet | crates/voipswitch-core/src/media/mod.rs:483-512 | the loop computes the union of the listed ranges, or refuses |
| Sdp.MappingsExact | crates/voipswitch-core/src/media/mod.rs:343-372 | an offered payload type has a mapping exactly if a line declares it, and it is the one every such line declares |
| Sdp.EventsExact | crates/voipswitch-core/src/media/mod.rs:483-505 | an accepted list means exactly the events some item covers |
| SdpMeaning.ParsesExactly | crates/voipswitch-core/src/media/mod.rs:139-334 | a body is accepted with a result exactly if it describes it: content type, no refused attribute, one media line with port and payload types, the connection line in effect, the RTCP address written or else on the next port, the payloads, telephone events and direction |
| SdpMeaning.DefaultRtcp | crates/voipswitch-core/src/media/mod.rs:304-312 | an accepted body without an RTCP attribute has its RTCP address on the port behind the RTP port, none behind port 65535 |
| SdpMeaning.RefusesInOrder | crates/voipswitch-core/src/media/mod.rs:139-259 | the content type, a missing media line, several ones and the first refused attribute are reported in this order |
| SdpMeaning.ConnectionExactly | crates/voipswitch-core/src/media/mod.rs:292-302 | the media's own first connection line is in effect, or else the session's first, and names the address |
| SdpMeaning.RtcpExactly | crates/voipswitch-core/src/media/mod.rs:304-312 | the first RTCP attribute of the media names port and address, the latter the connection's if it is left out |
| SdpMeaning.MediaExactly | crates/voipswitch-core/src/media/mod.rs:258-289 | the media line says audio over RTP/AVP on a non-zero port with payload types of seven bits |
| SdpMeaning.DirectionExactly | crates/voipswitch-core/src/media/mod.rs:314-324 | the media's first direction attribute, or else the session's first, or else both ways |
| SdpPayloads.PayloadsExactly | crates/voipswitch-core/src/media/mod.rs:343-421 | payloads and capability are reported exactly if every attribute can be read, no offered type has two of a kind, each payload is as its lines say, and at most one is for telephone events |
| SdpPayloads.CapabilityExactly | crates/voipswitch-core/src/media/mod.rs:393-418 | without parameters the events are 0 to 15, and the capability is detectable exactly at 8000 Hz with an event up to 15 |
| SdpPayloads.EventsExactly | crates/voipswitch-core/src/media/mod.rs:483-512 | an event list is accepted with a set exactly if every item is an event or a rising range of bytes and the set is their union |
| SdpRewrite.EditLines | crates/voipswitch-core/src/media/mod.rs:150-184 | editing the vector by index equals rewriting the parts around the media line |
| SdpRewrite.Rewrite | crates/voipswitch-core/src/media/mod.rs:145-192 | the whole rewriting, with every error; SdpMeaning.ParsesExactly says what its parsed half is, SdpTheorems.RoundTrip what its text means |
| SdpRewrite.RewriteOrigin | crates/voipswitch-core/src/media/mod.rs:212-231 | the first origin line of the description gets the relay's address, others stay |
| SdpRoundTrip.OriginLineSettles | crates/voipswitch-core/src/media/mod.rs:212-231 | rewriting an origin line twice is rewriting it once, also for short ones |
| SdpRoundTrip.ConnectionLineReads | crates/voipswitch-core/src/media/mod.rs:553-558 | the written connection line parses to its address |
| SdpRoundTrip.RtcpLineReads | crates/voipswitch-core/src/media/mod.rs:560-565 | the written RTCP attribute parses to its address and port |
| SdpRoundTrip.RewrittenSettles | crates/voipswitch-core/src/media/mod.rs:145-192 | after all edits the effective address lines are the relay's and every other line is unchanged |
| SdpMeaning.WrittenExactly | crates/voipswitch-core/src/media/mod.rs:150-152 | the media, connection and RTCP lines written consist of exactly the port, payload types, address family and address |
| SdpMeaning.OriginExactly | crates/voipswitch-core/src/media/mod.rs:212-231 | an origin line of at least six words keeps all words but the three that name the address |
| SdpTheorems.OneMediaLine | crates/voipswitch-core/src/media/mod.rs:233-244 | the media index is m exactly if line m, and no line around it, is a media line |
| SdpTheorems.RoundTrip | crates/voipswitch-core/src/media/mod.rs:139-192 | a body is rewritten exactly if it parses; the result parses to the same payloads, events and direction at the relay's RTP and RTCP addresses exactly if the RTP port is not zero |
| SdpTheorems.RewritingIsIdempotent | crates/voipswitch-core/src/media/mod.rs:145-192 | rewriting again for the same relay gives the same text |
| SdpWithoutRtcp.RoundTripWithoutRtcp | crates/voipswitch-core/src/media/mod.rs:168-184 | without an RTCP address of the relay the rewritten body parses to the relay's RTP address and the default RTCP address if it had at most one RTCP attribute; otherwise the second one is in effect |
| SdpWithoutRtcp.RewritingAgainWithoutRtcp | crates/voipswitch-core/src/media/mod.rs:168-184 | rewriting again for such a relay gives the same text exactly if the body had at most one RTCP attribute |
| CallAggregates.CallAggregate.SelectWinner | crates/voipswitch-core/src/call/mod.rs:487-533 | the whole new call and the answer of a selection |
| CallAggregates.CallAggregate.ReplaceWinner | crates/voipswitch-core/src/call/mod.rs:540-574 | the whole new call and the answer of a transfer's replacement |
| CallAggregates.CallAggregate.CancelAmong | crates/voipswitch-core/src/call/mod.rs:519-525 | the loop cancels exactly the other live attempts and lists their sessions in attempt order |
| CallAggregates.CallAggregate.UpdateAttemptState | crates/voipswitch-core/src/call/mod.rs:460-485 | transitions, refusals and the kept failure cause |
| CallAggregates.CallAggregate.HandoffCoordinator | crates/voipswitch-core/src/call/mod.rs:337-367 | the order of the checks and the new owner and generation |
| CallAggregates.CallAggregate.ActivateBridge | crates/voipswitch-core/src/call/mod.rs:288-314 | activation guarded by generation and state |
| CallRuns.NewCallSafe | crates/voipswitch-core/src/call/mod.rs:145-172 | a call is created exactly for a session with the caller role, and then meets the invariants of all runs |
| CallRuns.SafeOnEveryRun | crates/voipswitch-core/src/call/mod.rs:145-574 | on every run a set winner names an attempt that is Selected or Destroyed, winner and answer time are set together, the single-callee limit holds, and attempts, bridges and coordinator refer to legs |
| CallRuns.SelectNeverPanics | crates/voipswitch-core/src/call/mod.rs:492-501 | on no run does a winner lack its attempt |
| CallRuns.SelectionExact | crates/voipswitch-core/src/call/mod.rs:505-532 | a new selection leaves every other attempt terminal, changes no terminal one, and returns exactly the live sessions, in order |
| CallRuns.GrowsOnEveryRun | crates/voipswitch-core/src/call/mod.rs:218-574 | over every run attempts strictly climb or stay, terminal ones stay terminal, the first answer time is kept, released bridges stay released, role histories only grow and departures are final |
| CallRuns.OnlyWinnerExactly | crates/voipswitch-core/src/call/mod.rs:460-485 | a step keeps "only the winner is Selected" exactly unless it updates an answered attempt to Selected |
| CallRuns.OnlyWinnerOnEveryRun | crates/voipswitch-core/src/call/mod.rs:460-574 | a run keeps "only the winner is Selected" after every step exactly if none of its steps updates an answered attempt to Selected |
| CallRuns.TwoSelectedReachable | crates/voipswitch-core/src/call/mod.rs:599-609 | from a new call with parallel dialling, two callees answer and two direct updates leave two selected attempts and no winner |
| CallRuns.LineageOnEveryRun | crates/voipswitch-core/src/call/mod.rs:337-367 | the generation counts the changes of ownership, so a generation has one owner, and the owner is always a leg |
| CallRuns.MovesAtMostOnce | crates/voipswitch-core/src/call/mod.rs:343-349 | after ownership moved from a generation, every later hand-off with that generation is stale |
| CallRuns.LeftIsFinal | crates/voipswitch-core/src/call/mod.rs:239-251 | a leg that left is refused as coordinator on every later run |
| CallRuns.CandidatesExact | crates/voipswitch-core/src/call/mod.rs:369-394 | the list is sorted, free of repetition and holds exactly the available other legs |
| CallRuns.CandidatesAreAccepted | crates/voipswitch-core/src/call/mod.rs:337-394 | below the last generation the candidates are exactly the other legs a hand-off accepts; at it none is accepted |
| CallRuns.PreferredFirst | crates/voipswitch-core/src/call/mod.rs:376-388 | an available continuation comes first, otherwise a leg in an active bridge |
| CallSteps.SelectKeepsWinner | crates/voipswitch-core/src/call/mod.rs:492-504 | selecting never changes a call with a winner: the winner again is confirmed, any other attempt refused |
| CallSteps.WinnerChangesExactly | crates/voipswitch-core/src/call/mod.rs:487-574 | a step changes the winner exactly if it selects a first one or replaces it, by an answered attempt; the first answer time is kept |
| CallSteps.WinnerStays | crates/voipswitch-core/src/call/mod.rs:487-574 | over a run without a replacement a set winner and its answer time stay |
| CallSteps.AttemptUpdatedExactly | crates/voipswitch-core/src/call/mod.rs:460-485 | an update is refused, has nothing to do or moves this one attempt, which keeps its cause unless given one |
| CallSteps.AttemptAddedExactly | crates/voipswitch-core/src/call/mod.rs:409-445 | an attempt is added exactly for a leg that plays its callee, once, and only one for a single callee |
| CallSteps.RoleUpdatedExactly | crates/voipswitch-core/src/call/mod.rs:218-237 | a new role enters the history with its time, the same role does not, and no other leg changes |
| CallSteps.HistoriesOnEveryRun | crates/voipswitch-core/src/call/mod.rs:218-237 | on every run each leg's role history ends in its role and records changes only |
| CallSteps.NewCallExactly | crates/voipswitch-core/src/call/mod.rs:145-172 | a new call has the caller's leg, which owns generation 1, and nothing else; its role history is one of these |
| CallSteps.LegLeftExactly | crates/voipswitch-core/src/call/mod.rs:239-251 | a leg that leaves is destroyed at the time it first left and no longer available |
| CallSteps.LegAddedExactly | crates/voipswitch-core/src/call/mod.rs:396-407 | a session of this call and domain becomes a leg once, with its role from its creation on |
| CallSteps.BridgeAddedExactly | crates/voipswitch-core/src/call/mod.rs:253-286 | a planned bridge between two different legs, once, that connects neither yet |
| CallSteps.BridgeActivatedExactly | crates/voipswitch-core/src/call/mod.rs:288-314 | a planned bridge of the generation connects its legs from then on, an active one is left alone, a released one refused |
| CallSteps.BridgeReleasedExactly | crates/voipswitch-core/src/call/mod.rs:316-328 | a released bridge connects no leg and keeps its first release time, and no other bridge changes |
| CallSteps.AllReleasedExactly | crates/voipswitch-core/src/call/mod.rs:330-335 | afterwards no leg is in an active bridge, and first release times are kept |
| CallSteps.HandedOverExactly | crates/voipswitch-core/src/call/mod.rs:337-367 | ownership moves exactly for the current owner and generation, to an available other leg, below the last generation |
| CallSteps.CandidatesInOrder | crates/voipswitch-core/src/call/mod.rs:369-394 | of two candidates the earlier is the continuation, or else in an active bridge, or else joined first, or has the smaller id |
| Outbox.AiSubmissionOutbox.AppendJob | crates/voipswitchd/src/ai/outbox.rs:84-107 | appending is idempotent and refuses a different submission |
| Outbox.AiSubmissionOutbox.MarkInputEnded | crates/voipswitchd/src/ai/outbox.rs:118-140 | final sequences are write-once, late ends change nothing |
| Outbox.AiSubmissionOutbox.MarkCompleted | crates/voipswitchd/src/ai/outbox.rs:142-166 | the new files and the answer of a completion; OutboxEffects.CompleteExactly says what they are |
| Outbox.AiSubmissionOutbox.MarkResultStored | crates/voipswitchd/src/ai/outbox.rs:168-189 | only the recorded version can be marked stored |
| Outbox.AiSubmissionOutbox.AcknowledgeResult | crates/voipswitchd/src/ai/outbox.rs:191-214 | a record is deleted only when stored, for the acknowledged version |
| Outbox.ResultStore.PersistAiResult | crates/voipswitchd/src/data_store/seaorm.rs:615-683 | insert if absent, then compare with what is there |
| OutboxEffects.AppendExactly | crates/voipswitchd/src/ai/outbox.rs:84-107 | a new job gets a pending record exactly if its submission is complete and every stream is of a participant; the same submission again answers the record, another collides |
| OutboxEffects.CompleteExactly | crates/voipswitchd/src/ai/outbox.rs:142-166 | a first or newer completion becomes the record's, with its arrival time; the same again or an older one changes only the update time; another of the same version is refused |
| OutboxEffects.KeysSeparate | crates/voipswitchd/src/ai/job_service.rs:554-558 | jobs share a record's place exactly if tenant and job id are the same |
| OutboxEffects.AcceptExactly | crates/voipswitchd/src/ai/outbox.rs:109-116 | acceptance moves a pending record on and leaves later stages alone |
| OutboxEffects.EndInputExactly | crates/voipswitchd/src/ai/outbox.rs:118-140 | the end of the input sets the final sequences once and comes too late for a completed record |
| OutboxEffects.StoreExactly | crates/voipswitchd/src/ai/outbox.rs:168-189 | a record is marked stored exactly for the version it holds |
| OutboxEffects.AcknowledgeExactly | crates/voipswitchd/src/ai/outbox.rs:191-214 | a record is deleted exactly by the acknowledgement of its stored version; an unknown job is no error |
| OutboxEffects.PendingExactly | crates/voipswitchd/src/ai/outbox.rs:46-63 | what each stage has to send again, and that the other two have nothing |
| OutboxEffects.PersistExactly | crates/voipswitchd/src/data_store/seaorm.rs:615-683 | a row is in the table afterwards exactly if it was, or is the first of its version and can be written |
| OutboxEffects.HighestOnEveryRun | crates/voipswitchd/src/ai/outbox.rs:142-166 | over every run, with crashes and replays anywhere, a record holds the highest version ever accepted for it |
| OutboxEffects.AcceptedIsKept | crates/voipswitchd/src/ai/outbox.rs:142-166 | an accepted completion is only ever replaced by one of a higher version and keeps its arrival time |
| OutboxEffects.HandedOffExactly | crates/voipswitchd/src/ai/job_service.rs:550-589 | from any safe state, a first or newer result handed off without faults adds exactly its row to the table and ends stored, ready to be reported |
| OutboxProtocol.PendingIsValid | crates/voipswitchd/src/ai/outbox.rs:46-63 | every message a well-formed record sends passes the protocol's validation |
| OutboxProtocol.RowIsStable | crates/voipswitchd/src/ai/outbox.rs:65-75 | the row of a completion is independent of later updates exactly if its arrival time is recorded |
| OutboxProtocol.SafeOnEveryRun | crates/voipswitchd/src/ai/job_service.rs:550-589 | on every run that appends no deleted job again, with crashes and replays anywhere: persisting never collides, a record is stored only after its row is, and a deleted record's exact row is in the table |
| OutboxProtocol.RecordsAdvance | crates/voipswitchd/src/ai/outbox.rs:84-189 | over every run (version, stage) never falls, a version's completion and arrival time are fixed and sequences are write-once |
| OutboxProtocol.ReappendedCollides | crates/voipswitchd/src/data_store/seaorm.rs:615-683 | in every reachable state, a deleted job appended again and completed with the same version collides exactly if its row differs from the deleted record's, and is accepted otherwise |
| OutboxProtocol.TwoLivesCollide | crates/voipswitchd/src/ai/outbox.rs:84-214 | a run from the empty system that appends, completes, persists, stores and acknowledges a job and then appends and completes it again collides exactly if the arrival times differ |
| OutboxProtocol.LegacyCollides | crates/voipswitchd/src/ai/outbox.rs:65-75 | a completed record without an arrival time, handed off, interrupted by a crash, completed again and handed off again collides exactly if the second completion comes at another update time |
| OutboxReplay.HandOffSucceeds | crates/voipswitchd/src/ai/job_service.rs:665-701 | in every reachable state the hand-off of a completed record succeeds exactly if its result version is positive and neither write fails |
| OutboxReplay.PersistCompletedRecord | crates/voipswitchd/src/ai/job_service.rs:665-701 | both durable writes in order, with the partial effect of each failure |
| OutboxReplay.ReplayPending | crates/voipswitchd/src/ai/job_service.rs:761-784 | with failing reads, row writes and record writes anywhere, a replay stops at the first unreadable record and the first completed one with version zero or a failing write, and answers its error; the records before it are stored with their rows, every other record is untouched, and only a failing record write leaves a row of its own; otherwise it answers the records with a message to send |
| OutboxReplay.FilesAfterExact | crates/voipswitchd/src/ai/job_service.rs:761-784 | which records n turns of a replay have stored, and that every other record is as it was |
| OutboxReplay.ResultsAfterExact | crates/voipswitchd/src/ai/job_service.rs:665-701 | a replay only adds rows, and has those of all completed records it visited |
| OutboxReplay.ReplayCompletes | crates/voipswitchd/src/ai/job_service.rs:761-784 | from a reachable state and without faults, a replay visits every listed record exactly if no listed completion has version zero |
| OutboxReplay.VersionZeroReachable | crates/voipswitchd/src/ai/job_service.rs:550-560 | a run from the empty system stores a completion of version zero; a fault-free replay of its record stops there with an invalid-version error |
| OutboxReplay.ReplayKeepsSafe | crates/voipswitchd/src/ai/job_service.rs:761-784 | whatever stops a replay, and wherever, a reachable state stays safe |
| CdrPaging.DomainWithinGlobal | crates/voipswitchd/src/data_store/seaorm.rs:214-301 | a domain's part of the global order is its own sorted table |
| CdrPaging.FetchedPrefix | crates/voipswitchd/src/data_store/seaorm.rs:214-301 | the sorted merge of the per-domain tops starts like the global list, as far as the limit reaches |
| CdrPaging.ListCdr | crates/voipswitchd/src/data_store/seaorm.rs:214-301 | the page equals that slice of the globally sorted list of all records and the total their number; it fails exactly when the limit is not a database integer |
| CdrPages.PagesConcatenate | crates/voipswitchd/src/data_store/seaorm.rs:220-221 | the pages 1 to n are together the first n * size records of the global list |
| CdrPages.PageZero | crates/voipswitchd/src/data_store/seaorm.rs:220 | page 0 is page 1 |
| CdrPages.GlobalListExactly | crates/voipswitchd/src/data_store/seaorm.rs:246-290 | the global list holds exactly the domains' records, later end times first, then smaller domain ids, then larger call ids |
| CdrPages.SelectExactly | crates/voipswitchd/src/data_store/seaorm.rs:222-225 | a listing is over all domains, or over the named one, without records if it is unknown |
| RecordingCleanup.TableSettles | crates/voipswitchd/src/data_store/seaorm.rs:540-585 | one domain's pass keeps, expires or refuses every scanned row for the right reason, and the running total stays exact |
| CleanupOrder.OldestDeletedFirst | crates/voipswitchd/src/data_store/seaorm.rs:536-581 | in one domain, when a recording within retention is deleted, every one with an earlier end (or start) time, or the same time and a smaller call id, was deleted or its file refused; also in a pass that fails later, and for any byte totals |
| CleanupOrder.CleanupOldestFirst | crates/voipswitchd/src/data_store/seaorm.rs:518-587 | the same of a whole clean-up over all domains, with retention in days |
| CleanupOrder.CleanupWithinQuota | crates/voipswitchd/src/data_store/seaorm.rs:518-587 | while all recordings fit the quota, exactly those past retention whose file can go are deleted, and nothing else changes |
| CleanupOrder.CleanupCounts | crates/voipswitchd/src/data_store/seaorm.rs:526-587 | the number answered is that of the rows that changed, saturated |
| RecordingCleanup.CleanupMeetsQuota | crates/voipswitchd/src/data_store/seaorm.rs:518-587 | after the pass the remaining bytes exceed the quota at most by the undeletable files, and nothing older than the cutoff is left but those |
| CleanupOrder.CleanupFitsQuota | crates/voipswitchd/src/data_store/seaorm.rs:518-587 | what is left exceeds the quota in GiB by no more than the refused files and past retention there are only such; when every file can go the pass succeeds and neither is left |
| RecordingCleanup.RecordingStore.CleanupRecordings | crates/voipswitchd/src/data_store/seaorm.rs:518-587 | the new tables and the number of expired recordings, or the error; CleanupOrder says which and how many |

## Left out

- Sockets, tasks, channels, timers, file system calls, logging and SQL text: steps interleave instead, and each
  failing call is an input.
- The eBPF program's checksum and route lookups are kernel functions; the kernel appears as wrapping counters on the
  flow map.
- Promotion, rebind and health check are atomic steps; the lookup of local addresses in the source's `current_flows`
  does not fail here.
- The effective mode that corrects the forwarding mode by redirect errors is a small pure function and is not
  modelled.
- DTMF draining and waiting for an applied policy are single steps; what the relay tasks forward in between is not
  modelled.
- DtmfLeases.GenerationCountsModeChanges: for lease operations only; renegotiation sets the generation to the caller's
  value.
- The instants of the digit parser are unbounded; overflow of the monotonic clock is not modelled.
- Packet suppression by a collecting lease and the tap's sequence counters add only easy members.
- G.711 companding: `Recording` starts from decoded samples, and encoder and decoder are not inverse to each other.
- Recording file errors, the final rename and the database row of a recording; a sample counter that saturates is
  modelled.
- Text.IpRoundTrip: assumes the inverse for IPv6 text, as Text.FullFormInverse shows it to be possible; the compressed
  form that is actually printed is not modelled.
- SdpTheorems.RoundTrip: for relays with an RTCP address, as the bridge supplies one;
  SdpWithoutRtcp.RoundTripWithoutRtcp is the other case.
- SdpTheorems.RewritingIsIdempotent: for relays with an RTCP address; SdpWithoutRtcp.RewritingAgainWithoutRtcp is the
  other case.
- SdpMeaning.ParsesExactly: which of several errors inside the media section comes first is in the parser's functions
  only; SdpMeaning.RefusesInOrder has the order of the errors before them.
- Scope ids and flow labels of IPv6 socket addresses.
- Call legs drop endpoint, domain and the repeated session id; the call context and the snapshot carry data without
  logic.
- JSON encoding of outbox records, domain id validation and integer range errors of the result table, and a result
  row's derived columns.
- OutboxProtocol.SafeOnEveryRun: assumes that a job id is appended once, that arrival times are recorded (see
  OutboxProtocol.LegacyCollides for records without one) and that one job service runs at a time, as
  the service's single event loop provides.
- A submission may be replaced by its end-of-input message before it was accepted, so nothing is claimed about
  resending submissions.
- CleanupOrder.CleanupFitsQuota: for sizes that sum to a 64-bit number; the wrapping sum itself is modelled.
- Command line, status commands, configuration tables, migrations, system metrics, the adapter event loop and session
  manager.
