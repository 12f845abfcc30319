# Verified model of the mesh gateway

This project models the parts of the gateway that decide when it may transmit, what exactly goes on the
air, and what happens to what it hears, and proves properties of them over every input and every run.

* **Admission.** The relay chain (`RateLimiter.dfy`, `DedupFilter.dfy`, `RelayManager.dfy`) and the duty cycle
  (`DutyCycle.dfy`, `TxService.dfy`). Each class keeps the pruned structure of the source next to a ghost log of
  everything that ever happened, and is proved to answer as the whole log would. The clock is a parameter that
  never decreases. A send's budget check and its record are separate steps, so sends interleave.
* **NodeInfo broadcasts** (`NodeInfoBroadcaster.dfy`). A timed state machine over the awaits of the loop, with
  reloads, "Send Now", start and stop in between; the class's `while` loop is proved to reach the state the
  machine says.
* **Frames** (`Protobuf.dfy`, `Crypto.dfy`, `MeshtasticFrame.dfy`, `ChannelNumbering.dfy`, `EndToEnd.dfy`). Builder and
  trial-decryption decoder over an arbitrary block cipher, with a parser written from the "Base 128 Varints" and
  "Message Structure" sections of the Protocol Buffers Encoding specification, and counter mode as in section 6.5
  of NIST SP 800-38A; the TX and RX sides of channel numbering.
* **Store and forward** (`UpstreamClient.dfy`) and the **message table** (`MessageRepository.dfy`).
* **Radio plan and configuration** (`ConcentratorConfig.dfy`, `DeepMerge.dfy`).

Times are reals in seconds, percentages exact reals, frequencies integers in hertz or exact reals in megahertz.

## Where the code and its own description differ

The model follows the code; each point names the lemma that shows it.

* `RateLimiter` calls itself a token bucket (src/relay/rate_limiter.py:11); it is a sliding-window log, and exactly
  as strict as its two window bounds require (`RateLimiting.AllowedIffStaysFloodFree`).
* `DeduplicationFilter` promises "duplicate if seen within the TTL" and an LRU cache; a duplicate does not refresh
  its entry, so a key heard at 0, 299 and 301 s is new the last time (`Deduplication.DuplicateDoesNotRefresh`). The
  promise is kept exactly when no chain of receptions less than a TTL apart spans the TTL and no chain's opening is
  crowded out of the cache (`Deduplication.PromiseKeptIff`); what is bounded in every case is the distance between
  first sightings (`Deduplication.RecordIffStaysSpaced`).
* The filter joins source and packet id with a colon, which is ambiguous exactly for packet ids with a colon
  (`Deduplication.KeySharedIff`); the decoders produce hexadecimal ids only (src/decode/meshtastic_decoder.py:69,
  src/decode/meshcore_decoder.py:66, src/decode/meshcore_event_adapter.py:214).
* `DutyCycleTracker` promises to enforce the limit; with checks and records interleaved it does so, for a cap of 0 or
  more, iff at most one send is in flight or nothing with airtime can be sent (`Transmission.EnforcedIff`). The
  overshoot is bounded, and the bound is attained (`Transmission.EveryWindowWithinBound`,
  `Transmission.BoundIsAttained`).
* `remaining_budget_ms` and `check_budget` agree except on an airtime of zero when the cap is already exceeded
  (`DutyCycle.CheckAgreesWithRemaining`).
* `set_interval` promises to take effect within milliseconds; it does, except while a broadcast is in flight, and
  except between `start()` and the loop's first step when there is a startup delay (`Broadcasting.ReloadIsPromptIff`);
  in the first case it takes effect when the broadcast returns (`Broadcasting.ReloadDuringSendTakesEffect`). After a
  failed attempt the loop retries without any pause as long as it stays due (`Broadcasting.AfterFailure`,
  `Broadcasting.FailuresRetryWithoutPause`).
* The send route limits texts to "228 bytes" but counts characters; every text of n characters fits only up to
  n = 58, and 59 characters of four UTF-8 bytes pass the limit and lose the end of their frame
  (`Frames.EveryTextFitsIff`, `Frames.RouteLimitCountsCharacters`, `Frames.HalCopyIsWholeIff`).
* The flush pops the front of the buffer after a send, but overflows during the send may have evicted the message
  that was sent; then an unsent one is discarded. That happens exactly when more messages arrive during the send than
  there was room for, and each one too many costs one unsent message (`Upstream.PopRemovesSentIff`); a new client
  gets there by filling its buffer (`Upstream.NewClientLosesMessage`).
* Without a default key, RX hashes channel i with the key of channel i+1 and knows no hash for the last key's channel
  (`ChannelNumbering.IndexWithoutDefaultKeyAgreesIff`, `ChannelNumbering.LongFastAndAdminDisagree`).
* The counter mode nonce asks for packet ids that one node never reuses. One run of the service repeats an id only
  after 2^32 packets (`Transmission.TxService.IssuedPacketsShareNoBlock`), but a restart draws a new start in
  1..0xFFFF under the same node id (src/transmit/tx_service.py:83): two runs share a counter block exactly when both
  send and the start of one lies within the other (`Transmission.RunsShareBlockIff`,
  `Transmission.RestartSharesBlockIff`; starts 100 and 120 in `Transmission.RestartReusesBlock`).
* The two tables of regional default frequencies agree for US and EU_868 only (`Slots.DefaultTablesAgreeIff`).

## Model

| member | source | states |
|---|---|---|
| Windows.AdmittedIffBounded | src/relay/rate_limiter.py:27-47 | a time-ordered log consists of entries that each found room in the window ending at themselves iff no window anywhere holds more than the bound |
| Windows.AdmittedBoundsEveryWindow | src/relay/rate_limiter.py:27-47 | what each decision saw at its own instant bounds every window on the time line |
| RateLimiting.GrantLogIffFloodFree | src/relay/rate_limiter.py:27-42 | the possible grant histories are exactly those with at most max_per_minute grants in every closed minute and burst_size in every span under 5 s |
| RateLimiting.AllowedIffStaysFloodFree | src/relay/rate_limiter.py:27-42 | a request is refused exactly when granting it would break one of the two window bounds somewhere |
| RateLimiting.LastMinuteIsSuffix | src/relay/rate_limiter.py:44-47 | once exactly the grants older than a minute are gone, counting the rest counts the whole log's last minute and last 5 s |
| RateLimiting.RecentCount | src/relay/rate_limiter.py:35-37 | the counting loop gives the number of timestamps less than 5 s old |
| RateLimiting.RateLimiter.Prune | src/relay/rate_limiter.py:44-47 | pruning keeps the log; the deque's length is the number of grants ever made in the closed last minute |
| RateLimiting.RateLimiter.Allow | src/relay/rate_limiter.py:27-42 | the answer is the one the full grant log gives; the log grows by the instant of a grant only |
| RateLimiting.RateLimiter.CurrentRate | src/relay/rate_limiter.py:49-54 | reports the grants of the last minute and leaves the log, hence every later answer, unchanged |
| RateLimiting.RateLimiter.RemainingCapacity | src/relay/rate_limiter.py:56-60 | grants of the last minute plus capacity is the limit, or capacity is 0 at or over it; the log is unchanged |
| Deduplication.KeyInjective | src/relay/dedup_filter.py:29 | joined keys of colon-free packet ids are equal only for equal source and packet id |
| Deduplication.KeySharedIff | src/relay/dedup_filter.py:29 | some other pair with a colon-free id has the same key iff the packet id contains a colon |
| Deduplication.RecordIffStaysSpaced | src/relay/dedup_filter.py:27-51 | recording a key exactly when it is not remembered is exactly keeping repeated keys ttl or more than max_entries recordings apart |
| Deduplication.AnswerByOpening | src/relay/dedup_filter.py:27-51 | after right answers, the next reception is a duplicate iff the opening of its chain is within ttl and at most max_entries chains opened since |
| Deduplication.PromiseKeptIff | src/relay/dedup_filter.py:10-39 | everything heard within ttl of an earlier reception is a duplicate iff no chain of receptions less than ttl apart spans ttl and at most max_entries chains open from a chain's opening to each of its receptions |
| Deduplication.DuplicateDoesNotRefresh | src/relay/dedup_filter.py:34-35 | of receptions at 0, 299 and 301 s the first and the last are recorded, against the promise |
| Deduplication.CacheAnswersForLog | src/relay/dedup_filter.py:32-35 | after eviction, membership in the cache is membership among the last max_entries first sightings later than now - ttl |
| Deduplication.DeduplicationFilter.IsDuplicate | src/relay/dedup_filter.py:27-39 | the answer is the one the whole series of receptions gives, and the one the whole first-sighting log gives |
| Deduplication.DeduplicationFilter.CheckKey | src/relay/dedup_filter.py:32-39 | the cache stays a sorted, duplicate-free suffix of the first-sighting log and answers for all of it |
| Deduplication.DeduplicationFilter.EvictExpired | src/relay/dedup_filter.py:41-47 | afterwards every cached entry is strictly later than now - ttl, and only expired or surplus ones were forgotten |
| Deduplication.DeduplicationFilter.Insert | src/relay/dedup_filter.py:37-51 | the log grows by the sighting and the cache is cut back to max_entries |
| Relaying.ApprovedIff | src/relay/relay_manager.py:77-100 | approval iff enabled, new, relayable and within the rate; the limiter decides only on new relayable packets |
| Relaying.RejectedBecause | src/relay/relay_manager.py:85-100 | a new packet is rejected for hops, type, too strong, too weak or rate, the first that applies |
| Relaying.ReapprovalIsSpaced | src/relay/relay_manager.py:77-100 | two approvals of one source and packet id stem from sightings ttl apart or separated by more than max_entries others |
| Relaying.RelayManager.constructor | src/relay/relay_manager.py:46-62 | a new manager is valid with empty logs and the given limits |
| Relaying.RelayManager.SetEnabled | src/relay/relay_manager.py:68-71 | switching the relay keeps all invariants |
| Relaying.RelayManager.Evaluate | src/relay/relay_manager.py:77-100 | the decision follows the check order over both full logs; a rate slot is spent only on approval; a sighting is recorded unless disabled or duplicate |
| Relaying.RelayManager.CheckPacket | src/relay/relay_manager.py:85-97 | the checks of the packet itself pass iff it is relayable, and give the rejection the check order says |
| Relaying.RelayManager.BeginProcess | src/relay/relay_manager.py:102-119 | up to the await: a rejection is counted under its reason, an approval logged with its grant; all invariants hold |
| Relaying.RelayManager.CountDecision | src/relay/relay_manager.py:106-113 | evaluated, relayed, rejected and reason counts stay consistent |
| Relaying.RelayManager.FinishRelay | src/relay/relay_manager.py:107-108 | after the await one pending relay becomes relayed |
| Relaying.RelayManager.EveryRunIsSafe | src/relay/relay_manager.py:77-119 | in every reachable state: no flooded window, every approval relayable and spaced, relayed + rejected = processed once nothing is pending, reasons sum to rejected |
| DutyCycle.FitsIffWithinShare | src/transmit/duty_cycle.py:92-98 | the percentage test asks whether 100 times the airtime in milliseconds is at most 1000 times seconds times percent |
| DutyCycle.CheckAgreesWithRemaining | src/transmit/duty_cycle.py:92-121 | check_budget and remaining_budget_ms agree on an airtime iff it is positive or the cap is not exceeded |
| DutyCycle.AirtimeOfSuffix | src/transmit/duty_cycle.py:123-127 | summing the unpruned records sums the window |
| DutyCycle.DutyCycleTracker.PruneExpired | src/transmit/duty_cycle.py:123-127 | the records left sum to the airtime ever recorded in the closed window |
| DutyCycle.DutyCycleTracker.CheckBudget | src/transmit/duty_cycle.py:92-98 | accepts iff 100 times the airtime of the closed window and the new one is at most 1000 times seconds times percent; the log is unchanged |
| DutyCycle.DutyCycleTracker.RecordTx | src/transmit/duty_cycle.py:100-106 | the log grows by the transmission, and the pruning of the usage warning loses nothing |
| DutyCycle.DutyCycleTracker.RemainingBudgetMs | src/transmit/duty_cycle.py:115-121 | the positive airtimes up to the result are exactly those that stay within that share at that instant |
| Transmission.StepKeepsInv | src/transmit/tx_service.py:290-326 | check, record and failed send each keep window plus in-flight airtime within the bound |
| Transmission.EveryWindowWithinBound | src/transmit/tx_service.py:199-224 | in every interleaving every closed window holds at most 10 * seconds * percent + (k-1) * A milliseconds |
| Transmission.TimesIsProduct | src/transmit/duty_cycle.py:95-98 | the bound's repeated addition is the product |
| Transmission.OvershootingRun | src/transmit/tx_service.py:290-313 | a run in which k sends checked together put cap + (k-1) * airtime on record |
| Transmission.BoundIsAttained | src/transmit/tx_service.py:290-313 | for a whole-millisecond cap some run attains the bound exactly |
| Transmission.EnforcedIff | src/transmit/duty_cycle.py:62-98 | no window of any run exceeds the share iff 10 * seconds * percent is not negative, and sends are serialised or nothing with airtime can be sent |
| Transmission.IdsDistinct | src/transmit/tx_service.py:433-435 | packet ids less than 2^32 apart differ, ids 2^32 apart are equal |
| Transmission.RunsShareBlockIff | src/transmit/tx_service.py:433-435 | two runs of one node, from any two counters and of any lengths, share a counter block iff both send and one counter starts within the other run, ids modulo 2^32 |
| Transmission.RestartSharesBlockIff | src/transmit/tx_service.py:83 | for starts in 1..0xFFFF and runs that do not wrap, two runs share a block iff both send, c < c' + n' and c' < c + n |
| Transmission.RestartReusesBlock | src/transmit/tx_service.py:83 | 50 packets from 100 and one packet from 120 share a block, from 150 they do not |
| Transmission.ServicesShareBlockIff | src/transmit/tx_service.py:433-435 | the same for what two service objects of one node have actually issued |
| Transmission.TxService.constructor | src/transmit/tx_service.py:61-86 | a new service starts with an empty log and nothing in flight |
| Transmission.TxService.NextPacketId | src/transmit/tx_service.py:433-435 | issues the successor id modulo 2^32 |
| Transmission.TxService.BeginSend | src/transmit/tx_service.py:290-297 | the budget step of a send is the state machine's check |
| Transmission.TxService.FinishSend | src/transmit/tx_service.py:302-326 | a send with result code 0 is recorded, any other is not |
| Transmission.TxService.EveryRunIsSafe | src/transmit/tx_service.py:199-326 | in every reachable state ids less than 2^32 apart differ, beside the window bound of EveryWindowWithinBound, which the class keeps |
| Transmission.TxService.IssuedPacketsShareNoBlock | src/transmit/tx_service.py:433-435 | any two packets one service object issues less than 2^32 apart use no common counter block |
| Broadcasting.StepKeepsInv | src/transmit/nodeinfo_broadcaster.py:166-302 | every event keeps: no lost wake-up, sends in order, attempts due, interval supported |
| Broadcasting.EveryRunKeepsInv | src/transmit/nodeinfo_broadcaster.py:166-302 | the invariant holds in every run |
| Broadcasting.ClampsToNearest | src/transmit/nodeinfo_broadcaster.py:33-67 | a positive number of minutes becomes the nearest one from 5 to 1440, any other pauses |
| Broadcasting.StartStopIs | src/transmit/nodeinfo_broadcaster.py:135-164 | starting schedules an idle loop and changes nothing on a running one, stopping makes any loop idle |
| Broadcasting.StoppedStaysQuiet | src/transmit/nodeinfo_broadcaster.py:152-164 | a stopped loop makes no attempt until it is started again |
| Broadcasting.NoAttemptBeforeStartupDelay | src/transmit/nodeinfo_broadcaster.py:230-236 | from a start at t without reloads no attempt starts before t plus the startup delay |
| Broadcasting.StartupWaitIs | src/transmit/nodeinfo_broadcaster.py:230-236 | after the first step at r the loop can go on exactly from r plus the startup delay |
| Broadcasting.StartupWaitEnds | src/transmit/nodeinfo_broadcaster.py:236-246 | then the first attempt starts at once, or the loop pauses |
| Broadcasting.WakesExactlyAtDeadline | src/transmit/nodeinfo_broadcaster.py:241-260 | without a signal a paused loop stays and a waiting one goes on exactly from its deadline |
| Broadcasting.RestsUnsignalled | src/transmit/nodeinfo_broadcaster.py:231-250 | the loop's own steps leave no stale signal, so a resting loop does not spin |
| Broadcasting.NextDueIs | src/transmit/nodeinfo_broadcaster.py:111-133 | next_due_at is the end of the startup delay after a start, now after a reload before the first success, one interval after a success, nothing when paused |
| Broadcasting.WakesByNextDue | src/transmit/nodeinfo_broadcaster.py:111-133 | a sleeping, unsignalled loop wakes no later than next_due_at, once something was sent |
| Broadcasting.NeverSleepsPastDue | src/transmit/nodeinfo_broadcaster.py:250-260 | a sleeping loop is signalled, or nothing was sent, or it wakes by last_sent_at plus the current interval; a paused one is signalled or the interval is 0 |
| Broadcasting.PeriodicAttemptsArePolite | src/transmit/nodeinfo_broadcaster.py:205-248 | booted with a supported interval, no periodic attempt starts within 5 minutes of a send that succeeded before it |
| Broadcasting.LastSentNeverDecreases | src/transmit/nodeinfo_broadcaster.py:292-293 | last_sent_at never decreases in any run |
| Broadcasting.SentOnlyGrows | src/transmit/nodeinfo_broadcaster.py:292-293 | successful sends are only added, in time order |
| Broadcasting.PauseHolds | src/transmit/nodeinfo_broadcaster.py:240-243 | with interval 0 and no non-zero reload, no periodic attempt starts |
| Broadcasting.ReloadTakesEffect | src/transmit/nodeinfo_broadcaster.py:166-203 | a waiting loop can resume at once and pauses, fires, or sleeps until exactly last_sent_at plus the new interval |
| Broadcasting.ReloadDuringSendTakesEffect | src/transmit/nodeinfo_broadcaster.py:245-260 | a reload during a broadcast is picked up when it returns: pause, sleep out the new interval from the latest success (or from now), or fire |
| Broadcasting.ReloadIsPromptIff | src/transmit/nodeinfo_broadcaster.py:228-248 | a running loop can act on a reload at once iff no broadcast is in flight and it is not before its first step with a startup delay |
| Broadcasting.AfterFailure | src/transmit/nodeinfo_broadcaster.py:250-253 | after a failure the loop sleeps a full interval iff nothing was sent or a send just succeeded, and retries at once iff it is still due |
| Broadcasting.FailuresRetryWithoutPause | src/transmit/nodeinfo_broadcaster.py:245-253 | n failures in a row start n attempts at one instant |
| Broadcasting.NodeInfoBroadcaster.NextDue | src/transmit/nodeinfo_broadcaster.py:111-133 | the property reads next_due_at off the fields |
| Broadcasting.NodeInfoBroadcaster.StartLoop | src/transmit/nodeinfo_broadcaster.py:135-144 | starting is the machine's start and does nothing when running |
| Broadcasting.NodeInfoBroadcaster.StopLoop | src/transmit/nodeinfo_broadcaster.py:152-164 | stopping makes the loop idle |
| Broadcasting.NodeInfoBroadcaster.SetIntervalMinutes | src/transmit/nodeinfo_broadcaster.py:166-203 | the interval becomes 0 or 5 to 1440 minutes, the start is re-anchored before the first send, the event is set |
| Broadcasting.NodeInfoBroadcaster.RunToAwait | src/transmit/nodeinfo_broadcaster.py:239-260 | the while loop between two awaits ends in the state the closed form says |
| Broadcasting.NodeInfoBroadcaster.ResumeLoop | src/transmit/nodeinfo_broadcaster.py:228-260 | resuming is the machine's step, first step included |
| Broadcasting.NodeInfoBroadcaster.FinishBroadcast | src/transmit/nodeinfo_broadcaster.py:292-293 | only a successful send re-anchors last_sent_at |
| Broadcasting.NodeInfoBroadcaster.SendNowBroadcastReturned | src/transmit/nodeinfo_broadcaster.py:270-302 | a concurrent Send Now keeps the invariant without waking the loop |
| Broadcasting.NodeInfoBroadcaster.PeriodicBroadcastReturned | src/transmit/nodeinfo_broadcaster.py:245-260 | the loop runs on from its own broadcast as the machine says |
| Bytes.Le32RoundTrip | src/transmit/meshtastic_builder.py:165 | packing a 32-bit id little-endian is undone by unpacking |
| Protobuf.EncodeVarint | src/transmit/meshtastic_builder.py:170-177 | the byte loop writes the base-128 digits of the value |
| Protobuf.VarintRoundTripIff | src/transmit/meshtastic_builder.py:170-177 | decoding returns the value and leaves what follows iff the value fits 64 bits |
| Protobuf.FieldParses | src/transmit/meshtastic_builder.py:109-114 | a written field is parsed first and the rest of the message is left over |
| Protobuf.EncodeData | src/transmit/meshtastic_builder.py:103-115 | the growing buffer ends as the serialised Data message |
| Protobuf.DataFields | src/transmit/meshtastic_builder.py:103-115 | a written Data message parses to its two fields, any following fields left over |
| Protobuf.DataRoundTrip | src/transmit/meshtastic_builder.py:103-115 | a written Data message parses back to port number and payload |
| Protobuf.EncodeUser | src/transmit/meshtastic_builder.py:118-144 | the loop over the three strings and the model number writes the User message |
| Protobuf.UserRoundTrip | src/transmit/meshtastic_builder.py:118-144 | a written User message parses back to all four fields |
| Crypto.ExpandKey | src/decode/crypto_service.py:111-133 | every raw key becomes a 16- or 32-byte one: usable keys are kept, an index becomes the last byte of the default key, no key or index 0 gives zeros, short keys are padded with zeros, long ones cut |
| Crypto.WellKnownKeysDiffer | src/decode/crypto_service.py:126-132 | well-known key indices give pairwise different keys, index 1 the default |
| Crypto.NonceLayout | src/decode/crypto_service.py:136-147 | packet id and source id, least significant byte first, each followed by four zeros |
| Crypto.CtrIsCounterMode | src/decode/crypto_service.py:86-94 | byte n is XORed with byte n mod 16 of the enciphered block that is nonce plus n / 16, as one big-endian number modulo 2^128 |
| Crypto.CtrUndoesItself | src/decode/crypto_service.py:86-94 | counter mode with any block function undoes itself |
| Crypto.CounterBlocksNeverShared | src/decode/crypto_service.py:136-147 | packets differing in id or source share no counter block below 2^32 blocks, nor does one packet repeat a block |
| Crypto.ShareBlockIff | src/decode/crypto_service.py:136-147 | two packets have a counter block in common iff they agree in packet id and source id |
| Crypto.ComputeChannelHash | src/decode/crypto_service.py:175-187 | the two loops give the XOR of all name and key bytes |
| Utf8Encoding.EncodeCharIsUtf8 | src/transmit/meshtastic_builder.py:46-61 | every character takes its shortest form with the lead and tail bytes of section 3 of RFC 3629 |
| Frames.FlagsParse | src/transmit/meshtastic_builder.py:158-163 | parsing a built flags byte gives both hop counts modulo 8 and both switches |
| Frames.FlagsRebuild | src/decode/meshtastic_decoder.py:104-110 | each of the 256 flags bytes is rebuilt from what parsing finds in it |
| Frames.HeaderParses | src/decode/meshtastic_decoder.py:87-121 | a built header parses back to all its fields, whatever follows |
| Frames.HeaderLayout | src/transmit/meshtastic_builder.py:146-167 | every byte of a built header in numbers, the flags bits and the two zero bytes at the end included |
| Frames.FirstReadingIs | src/decode/meshtastic_decoder.py:44-58 | the first key whose decryption parses decides, none means unreadable |
| Frames.TryKeys | src/decode/meshtastic_decoder.py:44-58 | the loop returns what the first readable key makes of the ciphertext |
| Frames.Decode | src/decode/meshtastic_decoder.py:27-84 | the trial loop returns the header with the first readable content, or an encrypted report |
| Frames.UnreadableIsReported | src/decode/meshtastic_decoder.py:60-84 | a frame no key reads comes back with its header, the size of its payload and its channel hash, not decrypted |
| Frames.DroppedIff | src/decode/meshtastic_decoder.py:30-32 | a frame is dropped iff it is shorter than a header, and counts as decrypted iff some key reads it |
| Frames.PayloadReadIff | src/decode/meshtastic_decoder.py:49-58 | a decrypted payload is read iff it parses and is a text or accepted by its handler |
| Frames.ReadWithIs | src/decode/crypto_service.py:53-94 | a key no cipher takes reads nothing, any other what counter mode under the ids of the header yields |
| Frames.ShortestPayload | src/decode/meshtastic_decoder.py:49-58 | two bytes can be a whole message, fewer are none |
| Frames.FrameReads | src/decode/meshtastic_decoder.py:34-58 | cut behind the header and decrypted with its own key, a frame gives back exactly the serialised payload |
| Frames.BuildsIff | src/transmit/meshtastic_builder.py:46-61 | a frame is built iff there is a usable key and all ids fit their fields |
| Frames.RaisesIff | src/transmit/meshtastic_builder.py:46-61 | building raises iff there is a key and the packet or source id does not fit, or the key is usable and the destination or hash does not |
| Frames.TextOnTheWire | src/transmit/meshtastic_builder.py:46-61 | behind a text's header lies the encrypted Data message with port number 1, byte by byte |
| Frames.NodeInfoOnTheWire | src/transmit/meshtastic_builder.py:63-100 | a NodeInfo goes to the broadcast address with port number 4 |
| Frames.FrameRoundTrip | src/transmit/meshtastic_builder.py:46-61 | any payload comes back with its header if the sender's key is listed and no earlier key reads the frame |
| Frames.TextRoundTrip | src/transmit/meshtastic_builder.py:29-61 | every text comes back with destination, source, id, hops, ack flag and channel hash, marked decrypted |
| Frames.NodeInfoRoundTrip | src/transmit/meshtastic_builder.py:63-100 | every NodeInfo comes back as a broadcast whose body parses to the announced user |
| Frames.FrameLength | src/transmit/meshtastic_builder.py:103-167 | a frame is 16 + 2 + 1 + the length varint + the payload bytes long |
| Frames.HalCopyIsWholeIff | src/transmit/tx_service.py:408-411 | the copy into the HAL packet keeps the whole frame iff the text has at most 235 UTF-8 bytes |
| Frames.EveryTextFitsIff | src/api/routes/messages.py:67-68 | every text of n characters stays within 235 bytes iff 4 * n does |
| Frames.RouteLimitCountsCharacters | src/api/routes/messages.py:67-68 | 228 characters are 228 bytes for ASCII; 59 four-byte characters pass the limit with 236 bytes |
| ChannelNumbering.HashIsXorOfBoth | src/decode/crypto_service.py:175-187 | a channel's hash is the XOR of its name's and its key's bytes |
| ChannelNumbering.PrimaryChannel | src/transmit/tx_service.py:522-546 | channel 0 and numbers beyond the table are the primary channel under the first of all keys |
| ChannelNumbering.NegativeChannel | src/transmit/tx_service.py:534-537 | a negative number counts from the end of the table |
| ChannelNumbering.PutKeepsOrder | src/decode/crypto_service.py:32-34 | assigning a channel key keeps names distinct and in place, a new name goes last |
| ChannelNumbering.CryptoService.AddChannelKey | src/decode/crypto_service.py:32-34 | the table gains or replaces the expanded key; all keys stay usable |
| ChannelNumbering.CryptoService.AddSection | src/coordinator.py:382-386 | the startup loop loads a configured section in order |
| ChannelNumbering.CryptoService.GetAllKeys | src/decode/crypto_service.py:40-46 | default key first, then the channel keys in order, all usable |
| ChannelNumbering.LoadedStartsWithMeshtastic | src/coordinator.py:382-386 | after loading both sections the table starts with the Meshtastic names in configured order |
| ChannelNumbering.BuildHashMap | src/api/server.py:423-437 | the map sends exactly the channel hashes, each to the last channel that has it |
| ChannelNumbering.HashesAgree | src/transmit/tx_service.py:522-546 | with a default key RX hashes for channel i what TX sends on channel i |
| ChannelNumbering.IndexAgreesIff | src/api/server.py:423-437 | the looked-up index is the channel's own iff no later channel has the same hash |
| ChannelNumbering.IndexWithoutDefaultKeyAgreesIff | src/api/server.py:423-437 | without a default key the looked-up index is the channel's own iff no later RX hash is equal and, but for channel 0, there is a next key that XORs to the same byte as the channel's |
| ChannelNumbering.LongFastAndAdminDisagree | src/api/server.py:423-437 | with two channels under the well-known keys 1 and 2 and no default key neither is filed under its number |
| EndToEnd.ResolvedKeyIsListed | src/transmit/tx_service.py:531-546 | channel i is encrypted with the i-th of all keys, a usable one |
| EndToEnd.SentTextIsReadAndFiled | src/transmit/tx_service.py:249-263 | a text sent on channel i is decoded by nodes with the same keys and filed under i iff no later channel has its hash |
| Upstream.StepKeepsInv | src/api/upstream_client.py:254-262 | accept, peek, completed and failed send keep the buffer invariant |
| Upstream.EveryRunConserves | src/api/upstream_client.py:120-262 | in every interleaving the buffer is bounded, sends complete in strictly increasing order, and accepted = delivered + buffered + overflows |
| Upstream.NothingLostIffNoOverflow | src/api/upstream_client.py:56 | everything that left the buffer was delivered iff it never overflowed |
| Upstream.PopRemovesSentIff | src/api/upstream_client.py:256-259 | a flush round with n newcomers during its send pops the message sent iff n is at most the room left at the peek; otherwise exactly the excess leaves unsent |
| Upstream.FullBufferLosesNext | src/api/upstream_client.py:256-259 | with a full buffer one newcomer during a send makes the next message vanish unsent |
| Upstream.NewClientLosesMessage | src/api/upstream_client.py:120-262 | from the start, as many messages as the buffer holds and a round with one newcomer send message 0 and lose message 1 |
| Upstream.UpstreamClient.SendPacket | src/api/upstream_client.py:108-126 | queues iff enabled and within 120 per minute and 20 per 5 s, otherwise counts a drop |
| Upstream.UpstreamClient.Append | src/api/upstream_client.py:126 | the buffer stays a contiguous suffix of the accepted messages within its limit |
| Upstream.UpstreamClient.Connected | src/api/upstream_client.py:171-172 | connecting keeps the buffer |
| Upstream.UpstreamClient.Disconnected | src/api/upstream_client.py:146 | losing the connection keeps the buffer |
| Upstream.UpstreamClient.FlushPeek | src/api/upstream_client.py:255-256 | the message to send is the buffer's front, if there is one and a connection |
| Upstream.UpstreamClient.FlushFinish | src/api/upstream_client.py:257-262 | a completed send is logged and the front popped, never from an empty buffer; a failed one leaves the buffer |
| MessageStore.InsertExplained | src/storage/message_repository.py:155-165 | an inserted row is credited with its call |
| MessageStore.BumpExplained | src/storage/message_repository.py:137-153 | a duplicate is credited to the first row of its packet, count and strongest signal included |
| MessageStore.TableExplained | src/storage/message_repository.py:92-165 | every table a series of calls leaves is accounted for: each call is credited to one row of its packet, each row has its creator's text, its calls' number and the signal of the strongest |
| MessageStore.EveryRowFolds | src/storage/message_repository.py:132-165 | after any receipts each row counts the receipts of its packet and shows the first one with maximum rssi, a row without an id its own receipt |
| MessageStore.OneRowPerPacket | src/storage/message_repository.py:132-165 | no two rows share a non-empty packet id and every receipt's packet has a row |
| MessageStore.CountsAddUp | src/storage/message_repository.py:92-165 | the counts of all rows, sent ones included, add up to the number of calls |
| MessageStore.NamelessRowsAreTheirCalls | src/storage/message_repository.py:132-165 | the rows without a packet id are the calls without one, one each, in order and with their signals |
| MessageStore.UpdateRow | src/storage/message_repository.py:138-151 | one more receipt, a signal no weaker than the stored and the new one, the stored one unless the new is strictly stronger, and no other row touched |
| MessageStore.MessageRepository.SaveSent | src/storage/message_repository.py:92-113 | a sent message always gets a row of its own |
| MessageStore.MessageRepository.SaveReceived | src/storage/message_repository.py:115-165 | a duplicate changes only the first row of its packet, anything else appends a row; id and flag say which |
| Concentrator.BuildCenteredPlan | src/hal/concentrator_config.py:257-282 | eight reachable channels evenly around the centre, single-SF channel as requested |
| Concentrator.BuildNarrowPlan | src/hal/concentrator_config.py:285-308 | two enabled and six disabled entries, single-SF channel as requested |
| Concentrator.BuildWideBandPlan | src/hal/concentrator_config.py:311-333 | eight channels at the step, single-SF channel at LongFast |
| Concentrator.ForRegion | src/hal/concentrator_config.py:118-228 | every preset in full: four are one plan shifted to the region's default, KR spreads six channels, EU_868 uses two; all are reachable |
| Concentrator.FromRadioConfig | src/hal/concentrator_config.py:60-111 | accepted iff region and frequency are acceptable; the plan is the regional preset for its default frequency with LongFast, the narrow plan in EU_868 and the centred plan elsewhere, with the requested SF and bandwidth and an in-band frequency, the requested one unless it is another region's default |
| Concentrator.ConfigureIfChannels | src/hal/sx1302_wrapper.py:358-383 | chain centre plus programmed offset is each channel's frequency, within the radio's range when reachable; the single-SF channel gets its spreading factor and the code of its bandwidth, or of 250 kHz for any other |
| Slots.TablesAgree | src/config.py:15-25 | the loader's, the dashboard's and the plan builder's tables know the same regions and give them the same bands |
| Slots.Round4IsNearest | src/config.py:229-232 | rounding gives the nearest ten-thousandth, ties to even |
| Slots.FreqToSlotIff | frontend/js/radio_config_card.js:200-209 | a frequency has slot n iff n is a slot of the band and the raw number is within a thousandth of it |
| Slots.FormulaIsExact | frontend/js/radio_config_card.js:189-196 | on 125, 250 and 500 kHz the formula is a whole number of hertz and neither rounding changes it |
| Slots.SlotRoundTrip | frontend/js/radio_config_card.js:189-209 | slot to frequency and back is the identity |
| Slots.FreqRoundTrip | frontend/js/radio_config_card.js:200-209 | frequency to slot and back moves it by less than a thousandth of the spacing, not at all iff it is on the grid |
| Slots.SlotInBandIff | frontend/js/radio_config_card.js:189-196 | the formula is in the band iff the slot is valid, and then half a channel inside |
| Slots.RadioConfig.ResolveFrequency | src/config.py:216-234 | explicit frequency, then slot of a known region, then regional default |
| Slots.PlanForSlot | src/config.py:225-233 | for a valid slot the backend resolves the card's frequency and the plan listens on exactly it |
| Slots.DefaultCopiesAgree | src/config.py:27-36 | the resolver's defaults are those of the modem presets |
| Slots.DefaultTablesAgreeIff | src/config.py:29-36 | the resolver's and the plan builder's defaults agree iff the region is US or EU_868 |
| ConfigMerge.DeepMerge | src/cli/setup_wizard.py:72-88 | the loop over the overlay, in any order, computes the key-wise merge and terminates |
| ConfigMerge.MergeAtPath | src/cli/setup_wizard.py:72-88 | what the merge holds at every path, from what the two sides hold there |
| ConfigMerge.OverlayWins | src/cli/setup_wizard.py:72-88 | the overlay wins wherever it sets a leaf or replaces a non-dict |
| ConfigMerge.UncoveredSurvivesIff | src/cli/setup_wizard.py:72-88 | a base path the overlay lacks survives iff the overlay has no leaf above it |
| ConfigMerge.EmptyIsIdentity | src/cli/setup_wizard.py:72-88 | the empty dict is the identity on both sides |
| ConfigMerge.MergeIdempotent | src/cli/setup_wizard.py:72-88 | merging the same overlay again changes nothing |

## Left out

- Routes, WebSocket fan-out, dashboard rendering, prompts and provisioning: input, output and user interface.
- HAL calls, serial, USB, GPS, MQTT and TAK: foreign calls. Airtimes and result codes are parameters; a HAL call that fails while channels are configured is not modelled.
- AES itself: the cipher is an arbitrary function of key and block. Base64 decoding of keys: keys arrive as raw bytes.
- UTF-8 decoding: a parameter that undoes the modelled encoding. Handlers of port numbers other than text: a parameter says which bodies they accept.
- Protobuf groups (wire types 3 and 4): refused by the parser, while a library may skip well-formed ones.
- Rounding of floating-point numbers: exact reals instead.
- Hexadecimal formatting of ids in decoded packets, and timestamps: ids stay numbers.
- Clock corrections: the broadcaster's wall clock is taken never to go back and to agree with the timers, and the clock readings between two awaits of its loop to be equal.
- Cancelling a transmission between its budget check and its record, and cancelling a relay during its transmit call.
- DeduplicationFilter.clear, clear_channel_keys, usage percentages, counters for statistics, logging: they add only easy members.
- Destination parsing, node id derivation, code rates and the airtime estimate: pure lookups and hashing.
- MeshCore sending, decoding and companion handling: driven by a library that is not part of this model.
- The SQL engine and concurrent database tasks: the table is a sequence of rows and each save is one step; conversation queries, read marks and deletion are not modelled.
- Rebuilding channel tables after an edit at run time: the RX map is built once at startup.
- Heartbeats, command responses, registration and backoff of the upstream connection: they do not touch the buffer.
- Transmission.TxService.FinishSend: takes the record and the usage warning after it at one clock reading, because the warning only prunes.
- Broadcasting.NodeInfoBroadcaster.StopLoop: ends the loop at once, while the source waits up to five seconds for the cancelled task.
- Slots.RadioConfig.ResolveFrequency: rounding ties to even is applied to the exact value, not to its binary approximation.
