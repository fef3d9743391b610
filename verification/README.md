# Verified model of fips-shield's enforcement state machines

fips-shield stands between a mesh network and the services on a host. This
project models the three things it decides by — inspection, rates and bans —
and proves what they promise over every input and every run.

* **Inspection.** `Session.Connection` is the WebSocket engine with its own
  fields, updated in place by the upstream callback. Its methods are proved
  equal to the state machine of `Engine`, and the theorems are about every point
  of every history (`Engine.History`) of that machine: `Delivery` (what the relay gets is what was inspected, against
  the independent RFC 6455 receiver in `Relay`), `Segmentation` and
  `WholeSession` (the cutting of bytes into reads does not matter), `Monotone` (a looser policy is never
  stricter), `Ledger` (subscriptions, conformance and rates), `Verdicts` (why a
  session is cut and who is told), `EndOfInput`, `MidSessionBan`. `Octets` has
  exclusive or in binary digits.
  `Handshake` holds the header scan and the two ways of splitting header lines.
* **Bans.** `BanSpec` is the one abstract map both backends stand for.
  `BanFile` is the banlist file as a protocol of concurrent processes (lock,
  clock, read, temporary file, rename, unlock, death at any point) with
  lock-free readers; `BanCache` is the nginx worker's cached view of that file.
  `BanCache.WorkerEnforcesTheBans` composes the two end to end;
  `Admission.AccessEnforcesTheBans` and `MidSessionBan.CommandsCutSessions` carry
  that on to new and to open connections. `Guard` is the
  fixed-capacity kernel map; `Backends` runs file and kernel side by side.
* **Rates.** `TokenBucket` (sessions), `Throttle` (the classifier's u64
  milli-token bucket, with its wrap-around, floors and cap) and `Admission` (the
  fixed-window connection counter).
* **JSON writer.** `JsonWriter` builds text, `JsonReader` is an independent
  RFC 8259 reader, `JsonRoundTrip` takes every document back.

Time is an input: one instant per callback, packet or command. A theorem says so
when it needs the clock not to run backwards.

## Where the code and its comments disagree

The model follows the code.

* `guard/bpf/shield_guard.bpf.c:203-205` says sub-millisecond time is left on
  the clock. The refill sets `last_ns = now`, so it is dropped. `Throttle.RemainderKeptIff`
  gives exactly when nothing is lost, `Throttle.SubMillisecondTimeIsLost` a traffic
  pattern that loses nearly half, and `Throttle.CreditAtLeastHalf` the bound
  that does hold.
* `core/njs/shield_ws.js:579-582` says the end of input is propagated. The early
  returns at 525-527 and 569-571 skip that step. `EndOfInput.EofPassedExactly`
  gives exactly when it is passed on, in any state and mode, and
  `EndOfInput.EofOverSession` over a whole session; `EndOfInput.EofLostInHandshake`
  and `EndOfInput.EofLostInFrame` are two sessions, one for each return, in which
  the same bytes go either way.

## Model

| member | source | states |
|---|---|---|
| Session.Connection.constructor | core/njs/shield_ws.js:586-612 | a new session is the machine's initial state, with three separate full buckets |
| Session.Connection.Receive | core/njs/shield_ws.js:487-584 | the upstream callback takes the whole session state exactly where the machine's `OnData` takes it |
| Session.Connection.Serve | core/njs/shield_ws.js:613-620 | a sequence of callbacks, whatever it is, ends in the state of the machine's run |
| Session.Connection.RecheckBan | core/njs/shield_ws.js:491-501 | the ban list is asked at most once per interval, and never in plain mode; a yes cuts the session |
| Session.Connection.ReadHandshake | core/njs/shield_ws.js:506-527 | reads are counted, the size cap covers every byte read so far, the scan resumes two bytes back |
| Session.Connection.ClassifySession | core/njs/shield_ws.js:528-556 | nothing is sent before the bare-LF test; the head goes out re-encoded; the rest is parsed or passed on |
| Session.Connection.ReadFrames | core/njs/shield_ws.js:557-583 | segments are held until `need` bytes are in, then joined and pumped |
| Session.Connection.PumpFrames | core/njs/shield_ws.js:378-485 | the frame loop computes the recursive pump of the machine |
| Session.Connection.ReadHeader | core/njs/shield_ws.js:380-443 | the header decision: wait for so many bytes, refuse under which rule, or take which frame |
| Session.Connection.ConsumeFrame | core/njs/shield_ws.js:444-463 | a frame is held; control frames are released only outside a message; too many held frames cut the session |
| Session.Connection.AddFragment | core/njs/shield_ws.js:464-483 | fragments accumulate up to the limit; the final one sends the message to inspection |
| Session.Connection.InspectMessage | core/njs/shield_ws.js:287-373 | the branches of inspection, the bucket each takes from, and the subscription table afterwards |
| Session.Connection.Close | core/njs/shield_ws.js:259-277 | everything held is dropped, one NOTICE and one Close go down, one Close goes up, once per session |
| Session.Connection.FlushPending | core/njs/shield_ws.js:279-285 | held frames are sent in order, unchanged, and no longer held |
| Session.Connection.Materialise | core/njs/shield_ws.js:572-576 | both ways of joining the held segments give the same contiguous bytes |
| Verdicts.RefusedForCause | core/njs/shield_ws.js:383-438 | a frame is refused, and under which rule, exactly for what its header says, read off its binary digits and the receiver's length field |
| Verdicts.FrameCut | core/njs/shield_ws.js:444-482 | taking a frame cuts the session exactly when 256 frames or 64 fragments are held already, or it completes a message inspection refuses |
| Verdicts.MessageRefusedForCause | core/njs/shield_ws.js:287-373 | a message is refused, and under which rule, exactly for the first of the listed causes that applies |
| Verdicts.HandshakeCut | core/njs/shield_ws.js:506-556 | a read of the header block cuts the session exactly when it is one too many, makes it longer than 16384 bytes, completes it with a bare LF, or brings frames the pump refuses |
| Verdicts.WebSocketCut | core/njs/shield_ws.js:557-578 | a WebSocket read is refused before the pump exactly when it is one too many |
| Verdicts.ReadsCounted | core/njs/shield_ws.js:507-560 | every read of a surviving session is counted once, within its cap, and the count of a message starts again exactly when one is let through |
| Verdicts.ReadsCapped | core/njs/shield_ws.js:61-72 | in every live state both counts are within their caps |
| Verdicts.CloseSays | core/njs/shield_ws.js:253-276 | a receiver reads the injected Close as status 1008 and the rule's name |
| Verdicts.ClientIsToldWhy | core/njs/shield_ws.js:259-276 | at every point of every session: a live one has been told nothing, a cut one got one NOTICE and one Close that name the rule |
| Verdicts.RuleNames | core/njs/shield_ws.js:125-584 | the fourteen names |
| Engine.HistoryRuns | core/njs/shield_ws.js:586-620 | a history, state by state, is the run of its reads; it carries every result to the connection's own methods |
| Frames.UnmaskInPlace | core/njs/shield_ws.js:447-450 | the loop turns the buffer into its XOR with the repeating key |
| Octets.XorByDigits | core/njs/shield_ws.js:448-450 | the XOR of two octets is, in each of its eight binary digits, the sum of theirs mod 2; the receiver unmasks by that definition |
| Octets.XorUndone | core/njs/shield_ws.js:448-450 | XOR with the same octet twice gives the first back |
| Agreement.MaskingUndone | core/njs/shield_ws.js:447-450 | any payload masked with any key is unmasked to itself |
| Frames.WaitStands | core/njs/shield_ws.js:381-443 | a decision to wait is the decision on any extension still shorter than `need` |
| Agreement.NeedIsExact | core/njs/shield_ws.js:381-443 | `need` is the end of what the header has announced so far: two octets, then the length field, then the receiver's whole frame |
| Frames.DecisionStands | core/njs/shield_ws.js:391-443 | a frame or a refusal seen in a prefix is seen in every extension, with the same payload and the same remainder |
| Agreement.SameFrame | core/njs/shield_ws.js:387-450 | the bytes taken as one frame are exactly the first frame an independent RFC 6455 receiver sees, with the same flags and unmasked payload |
| Agreement.TakenIffAdmissible | core/njs/shield_ws.js:391-443 | of the whole frames the receiver sees, exactly those are taken that are masked, without reserved bits, text or control, in their place and within the size limit |
| Agreement.InjectedFrameReadsBack | core/njs/shield_ws.js:235-251 | a frame of any encodable payload length, masked or not, is read back by the independent receiver with its opcode and payload |
| Agreement.CloseIsTransparent | core/njs/shield_ws.js:253-257 | the injected Close adds nothing to what a receiver has reassembled and leaves no bytes over |
| Relay.ReceiveAppend | core/njs/shield_ws.js:279-285 | a stream cut at a frame boundary is received piece by piece (about the independent receiver, sections 5.2 to 5.4) |
| Delivery.UpstreamIsClientPrefix | core/njs/shield_ws.js:487-584 | in every run, killed or not, the bytes sent upstream are a prefix of the client's stream, and after a violation that prefix and one Close |
| Delivery.EchoOfAscii | core/njs/shield_ws.js:538-541 | with a header block of bytes below 0x80 that stream is byte for byte the client's |
| Delivery.InspectorAndRelayAgree | core/njs/shield_ws.js:378-485 | at every point of every WebSocket session, the independent receiver fed the upstream bytes holds exactly the messages that passed inspection, in order, and no part of another |
| Delivery.NothingLost | core/njs/shield_ws.js:435-482 | in a session not cut, what went upstream, what is held and what is unparsed make up the client's stream |
| Delivery.NoMessageWithheld | core/njs/shield_ws.js:378-485 | a receiver given the client's own stream would hold the same messages as were let through, the same unfinished one and the same unparsed bytes: nothing complete is held back |
| Delivery.RetainedMemoryBounded | core/njs/shield_ws.js:435-482 | in every live state: at most 256 held frames, 64 fragments, held bytes, message bytes, unparsed bytes and `need` within fixed bounds; nothing held outside a message |
| Segmentation.LazyIsEager | core/njs/shield_ws.js:557-578 | buffering until `need` bytes are in has the effect of pumping on every read; skipping the pump changes nothing |
| Segmentation.PumpSplit | core/njs/shield_ws.js:378-485 | pumping a prefix and then the rest is pumping the whole |
| Segmentation.SegmentationDoesNotMatter | core/njs/shield_ws.js:557-578 | any two cuttings of the same bytes, from any reachable WebSocket state: same bytes and Close upstream, same verdict, and the same state if the session lives |
| WholeSession.CutsDoNotMatter | core/njs/shield_ws.js:487-584 | any two cuttings of the same bytes from the first byte of a session, handshake included, no cap hit: same bytes upstream and down, same verdict, and the same state if the session lives |
| WholeSession.HistoryExplained | core/njs/shield_ws.js:506-578 | at every point of such a session its state is what the bytes alone make of it: waiting, refused for a bare LF, passed through, or where the pump gets with the whole body at once |
| EndOfInput.EofPassedExactly | core/njs/shield_ws.js:487-584 | in any state and on any read, a surviving session has passed on the end of input if and only if it had before, or the read carries it and is in plain mode, empty, completes the header block or completes the bytes waited for; a read that cuts the session never passes it on |
| EndOfInput.EofOverSession | core/njs/shield_ws.js:487-584 | over a whole session it has been passed on if and only if some read both carried it and got that far |
| EndOfInput.EofDependsOnCut | core/njs/shield_ws.js:525-527 | wherever a read would survive without getting that far, the end of input is lost with it and passed on by itself |
| EndOfInput.EofLostInHandshake | core/njs/shield_ws.js:525-527 | from a new session, the first byte of a request with the end of input on it loses it; with the end of input after it, it is passed on |
| EndOfInput.EofLostInFrame | core/njs/shield_ws.js:569-571 | the same after a concrete upgrade request, with the first byte of a frame |
| Monotone.LooserNeverStricter | core/njs/shield_ws.js:287-373 | with ban checks off, a session the tighter policy does not cut is not cut by the looser one, which sends the same bytes upstream |
| Monotone.PresetsOrdered | presets/strfry/strict.env:15-31 | strict, default and loose form such a chain |
| Policy.CheckFilters | core/njs/shield_ws.js:125-180 | the loop finds the rule of the first offending filter, or the overall cost, or none |
| Policy.CheckFilter | core/njs/shield_ws.js:137-173 | one filter: no object, or breaking the declarative policy, or within it at its cost |
| Policy.GetFinds | core/njs/shield_ws.js:149 | reading a key gives the value of the first field of that key wherever it stands, and undefined if there is none |
| Policy.GetOfDistinctKeys | core/njs/shield_ws.js:308-310 | in an object without repeated keys every field is found by its key |
| Policy.CostAddsUp | core/njs/shield_ws.js:153-157 | the cost of a query adds up over filters and fields: one a field, one an array item, nothing else |
| Policy.DefaultReadsSuffice | core/njs/shield_ws.js:92-96 | the default read budget is the least number of 1024-byte segments that hold the largest message, and 64 more |
| Policy.FiltersFaultIffNonconforming | core/njs/shield_ws.js:123-180 | a query is refused if and only if its filters break the declarative policy |
| Policy.IsNarrowing | core/njs/shield_ws.js:114-121 | true exactly when some key constrains the query |
| Policy.TighterFilters | core/njs/shield_ws.js:123-180 | filters within a tighter policy are within a looser one |
| Ledger.SubscriptionsExact | core/njs/shield_ws.js:316-370 | at every point the table is the ids opened and not closed by forwarded messages, the counter is its size, within the limit; the clamp at zero never decides |
| Ledger.ForwardedConform | core/njs/shield_ws.js:287-373 | every forwarded message has an allowed type, and its kind, ids and filters are within policy |
| Ledger.LetThroughIff | core/njs/shield_ws.js:287-373 | a message passes if and only if its buckets can pay, it conforms to the declarative policy and there is room for its subscription |
| Ledger.InspectCharges | core/njs/shield_ws.js:287-363 | a message let through has been charged once to each of its buckets and to no other |
| Ledger.ForwardedWithinRate | core/njs/shield_ws.js:287-363 | in any span of a session, messages, publications and queries let through are each at most burst plus rate times the span |
| TokenBucket.Meter.Take | core/njs/shield_ws.js:186-195 | a take refills lazily, caps, and either pays one token or leaves the refill |
| TokenBucket.RefillPathIndependent | core/njs/shield_ws.js:186-195 | refilling in two steps is refilling in one; a refused take costs no later credit |
| TokenBucket.PaysExactly | core/njs/shield_ws.js:186-195 | a take pays if and only if what is left plus the rate times the seconds since, capped at the burst, is at least one; then one is gone |
| TokenBucket.FreshPaysItsBurst | core/njs/shield_ws.js:182-195 | a new bucket pays n takes at once if and only if n is at most its burst |
| TokenBucket.SteadyPacePays | core/njs/shield_ws.js:186-195 | a client that leaves the time for one token between takes is never refused |
| TokenBucket.WindowBound | core/njs/shield_ws.js:186-195 | the paid takes inside any window are at most burst plus rate times its length |
| MidSessionBan.BanBitesOnTime | core/njs/shield_ws.js:487-501 | once a ban has held for the recheck interval, the next read of a non-plain session sends nothing of itself and cuts the session as banned |
| MidSessionBan.AsksWhenDue | core/njs/shield_ws.js:493-500 | the ban list is asked exactly by the reads of a live, non-plain session that come the recheck interval or more after it was last asked, or after the opening |
| MidSessionBan.CommandsCutSessions | core/njs/shield_ws.js:491-501 | end to end: a ban the ban commands have in force is the one that cuts the session, through whatever files and worker caches it went |
| MidSessionBan.CutForGood | core/njs/shield_ws.js:488-490 | a cut session never changes or sends again |
| Handshake.HeaderBlockEnd | core/njs/shield_ws.js:207-220 | the scan finds the end of the first terminator at or after its start, or none exists |
| Handshake.BlockEndsAtFirstBlankLine | core/njs/shield_ws.js:197-220 | that end is just past the first blank line, LF LF or LF CR LF, and -1 if and only if there is none |
| Handshake.ResumedScanExact | core/njs/shield_ws.js:202-207 | resuming two bytes back finds what a scan from the start finds |
| Handshake.ScanReadsExact | core/njs/shield_ws.js:515-527 | over any cutting into reads the resumed scans find the first terminator of the whole |
| Handshake.HasBareLf | core/njs/shield_ws.js:223-230 | true exactly when some LF in range has no CR before it |
| Handshake.AcceptedBlockEndsAtCrlfCrlf | core/njs/shield_ws.js:523-537 | an accepted block ends at the first CRLFCRLF |
| Handshake.SameLinesIff | core/njs/shield_ws.js:528-537 | the CRLF-only and the tolerant splitting (RFC 9112 section 2.2) give the same lines if and only if there is no bare LF |
| Handshake.UpgradeLineMeans | core/njs/shield_ws.js:542 | the pattern matches exactly "upgrade:" in any case, any number of spaces and tabs, "websocket" in any case |
| Handshake.ReadingsCoincide | core/njs/shield_ws.js:523-542 | for an accepted handshake, the upgrade test holds exactly when some later line reads so, under either splitting |
| BanFile.ReadersSeeLockOrder | core/actions/shield-ban:34-51 | in any interleaving every reader sees one whole file, one line per address, equal up to expired entries to the commands in lock order |
| BanFile.ListIsTheBans | core/actions/shield-ban:106-108 | the listed entries are exactly the bans in force, each with its deadline |
| BanFile.InstalledForGood | core/actions/shield-ban:74-91 | a command that got as far as installing its file is in the record for ever, in its place |
| BanFile.CommandCompletes | core/actions/shield-ban:74-91 | a command that finds the lock free can be carried through: the file becomes its list, the record grows by it, the lock is free again |
| BanSpec.LastCommandDecides | core/actions/shield-ban:55-91 | the last ban or unban of an address decides what it means, whatever others there are |
| BanFile.StepKeeps | core/actions/shield-ban:43-91 | every step of every process, including dying, keeps the protocol invariant |
| BanFile.NewListAgrees | core/actions/shield-ban:68-90 | the list written under the lock is the command applied to the file read, up to expired entries |
| BanCache.Reader.LoadBans | core/njs/shield_core.js:93-129 | the cache after a look: emptied, kept, or replaced by a parse of the file |
| BanCache.Reader.IsBanned | core/njs/shield_core.js:131-149 | the answer on a permanent, timed, corrupt or missing deadline, and the cache afterwards |
| BanCache.CachedAnswerIsFresh | core/njs/shield_core.js:93-129 | after any history of rewrites, deletions and re-creations the cached answer is that of a fresh read |
| BanCache.FreshAnswerMeans | core/njs/shield_core.js:111-148 | a source is banned if and only if the last line about it has a deadline that is corrupt, zero, or later than now |
| BanCache.WorkerAgreesWithCheck | core/njs/shield_core.js:131-149 | milliseconds here and whole seconds in the check verb decide alike on every file the backend writes |
| BanCache.WorkerEnforcesTheBans | core/njs/shield_core.js:93-149 | end to end: a worker turns an address away if and only if the commands installed so far have it banned at this second |
| Guard.BanTable.PruneExpired | guard/src/main.rs:436-451 | collecting and then deleting leaves exactly the bans in force and returns how many went |
| Guard.BanTable.Ban | guard/src/main.rs:453-496 | the entry gets in, or the map is full of other bans in force: one sweep and one retry suffice; IPv4 changes nothing |
| Guard.BanTable.Unban | guard/src/main.rs:498-533 | the address is out of the map and nothing else changes |
| Guard.BanTable.Check | guard/src/main.rs:535-559 | the answer is the classifier's, and only a lapsed entry of that address goes |
| Guard.BanTable.List | guard/src/main.rs:561-578 | exactly the bans in force, each with its reported deadline |
| Guard.BanTable.Stats | guard/src/main.rs:604-616 | active and reclaimed counts add up to what was in the map |
| Guard.KernelEnforcesTheBans | guard/bpf/shield_guard.bpf.c:181-189 | after any history of commands the classifier drops exactly the addresses whose last successful command bans them now; capacity is never exceeded |
| Guard.DropsByLastWord | guard/bpf/shield_guard.bpf.c:181-189 | in so many nanoseconds: dropped if and only if the last unban, or ban that got in, was a ban whose time is not up |
| Guard.LastWordStored | guard/src/main.rs:463-474 | what is stored and listed for an address is its last successful ban's duration after both clocks, capped at 64 bits; 0 for a permanent one |
| Guard.SweepsAreInvisible | guard/src/main.rs:535-618 | check, list and stats never change a present or future decision |
| Guard.TimedBanNeverPermanent | guard/src/main.rs:463-474 | a positive duration is never stored as the permanent value |
| Throttle.Classifier.Classify | guard/bpf/shield_guard.bpf.c:161-222 | the decision, the buckets and the counters after one packet, with u64 wrap-around |
| Throttle.Classifier.Configure | guard/src/main.rs:412-425 | a rate without a burst gets one packet |
| Throttle.SourcesIndependent | guard/bpf/shield_guard.bpf.c:191-218 | however sources and bans are interleaved, each source is served as if alone |
| Throttle.OffPassesAll | guard/bpf/shield_guard.bpf.c:191-220 | with throttling off exactly the packets bans drop are dropped |
| Throttle.OthersUntouched | guard/bpf/shield_guard.bpf.c:161-194 | what is not IPv6 or cannot be read always passes and touches no bucket; a banned source neither; any other packet only its own |
| Throttle.CountersCount | guard/bpf/shield_guard.bpf.c:161-222 | over any traffic every counter is the number of packets it is named for |
| Throttle.PassedWithinRate | guard/bpf/shield_guard.bpf.c:191-218 | one source's packets passed in any window are at most burst plus rate * (ms + 1) / 1000, as long as no pause between its packets overflows a refill |
| Throttle.TrafficWithinRate | guard/bpf/shield_guard.bpf.c:191-218 | the same bound for each source in any traffic |
| Throttle.CreditAtLeastHalf | guard/bpf/shield_guard.bpf.c:203-211 | credit added before capping is at least half of rate times the clock consumed since the bucket was made |
| Throttle.BusySourceGetsHalf | guard/bpf/shield_guard.bpf.c:203-217 | a source whose bucket never fills up gets burst and at least half its rate through, less what is left in the bucket |
| Throttle.PassesIffCovered | guard/bpf/shield_guard.bpf.c:207-217 | while the bucket never fills up, a packet passes if and only if burst and credit so far cover one more |
| Throttle.RefillWraps | guard/bpf/shield_guard.bpf.c:206-211 | a refill that reaches 2^64 starts again from nothing |
| Throttle.RemainderKeptIff | guard/bpf/shield_guard.bpf.c:203-211 | time taken off the clock is credited in full if and only if it is a whole number of milliseconds, or none was taken |
| Throttle.SubMillisecondTimeIsLost | guard/bpf/shield_guard.bpf.c:203-211 | packets 1.9 ms apart earn 10 ms of credit over 19 ms |
| Backends.FileAgrees | core/actions/shield-ban:68-90 | after any sequence of calls, each rewriting the list it finds and dropping expired lines, the file says what the calls mean |
| Backends.BackendsWithinOneSecond | guard/shield-ban:19-24 | run on the same calls, what the file's check verb reports is dropped by the kernel; a kernel-only ban is within a second of its end; permanent bans agree |
| Admission.Gate.Access | core/njs/shield_core.js:245-289 | the missing-file warnings, the ban list as this worker's cache has it, then the counter: the decision, the shared dictionary and the cache afterwards |
| Admission.Gate.WarnPeriodically | core/njs/shield_core.js:51-66 | a warning is given exactly when its key is not in the dictionary yet |
| Admission.AccessEnforcesTheBans | core/njs/shield_core.js:265-289 | end to end: a source is turned away, uncounted, if and only if the ban commands have it banned at this second; anyone else gets in unless over the rate |
| Admission.WorkersAgree | core/njs/shield_core.js:265-282 | workers with different histories of looks turn away the same sources |
| Admission.Gate.ConnRateExceeded | core/njs/shield_core.js:187-198 | one increment of the window's counter, and the comparison |
| Admission.KeysDistinct | core/njs/shield_core.js:169-196 | counters of different listeners, sources or windows never share a key, although addresses contain colons |
| Admission.WindowSpans | core/njs/shield_core.js:195 | an instant lies in the window its number names, each `window` seconds long, from the clock's epoch on |
| Admission.WarningsAreNoCounters | core/njs/shield_core.js:260-276 | a warning key is never a counter key |
| Admission.CounterIsTries | core/njs/shield_core.js:187-198 | a counter counts its own source at its own listener and window, whatever warnings, other counters and other entries are in the shared dictionary |
| Admission.WindowLetsInFirst | core/njs/shield_core.js:169-198 | within a window exactly the first `rate` attempts get in |
| Admission.LetInBounded | core/njs/shield_core.js:169-198 | over any stretch of windows at most `rate` for each |
| Admission.AtMostTwiceTheRate | core/njs/shield_core.js:169-198 | between two instants up to a window apart at most twice the rate, wherever the boundary falls |
| Admission.AtMostTwiceBetween | core/njs/shield_core.js:169-198 | the same, counting the connections let in by their own instants |
| Admission.NextWindowLetsIn | core/njs/shield_core.js:169-198 | a source over its rate gets in again once the next multiple of the window has passed |
| Admission.OffLetsAllIn | core/njs/shield_core.js:187-190 | with the rate at 0 whoever is not banned gets in |
| Admission.WarningsGiven | core/njs/shield_core.js:260-276 | a listener without a ban file, or with a missing one, has its warning in the dictionary from the first attempt on |
| JsonWriter.PushStr | ui/src/json.rs:13-29 | the escaping loop appends the quoted form of the string |
| JsonRoundTrip.EscapingExample | ui/src/json.rs:116-121 | the writer's own example of escaping, character by character |
| JsonWriter.Obj.Raw | ui/src/json.rs:73-77 | one member is added, with its separator, after those already there |
| JsonWriter.Obj.Done | ui/src/json.rs:79-83 | the text is that of the object built so far |
| JsonWriter.Arr | ui/src/json.rs:87-97 | the text of the array of the given values |
| JsonWriter.StrArr | ui/src/json.rs:100-110 | the text of the array of the given strings |
| JsonRoundTrip.QuotedBack | ui/src/json.rs:13-29 | arbitrary contents survive, and the string ends where it should whatever follows |
| JsonRoundTrip.DocumentParsesBack | ui/src/json.rs:13-110 | an RFC 8259 reader consumes every document whole and returns its meaning; numbers denote themselves |
| JsonRoundTrip.TextDeterminesMeaning | ui/src/json.rs:13-110 | documents with different meanings never share a text |

## Left out

- The detail text and timestamps of verdicts, log and warning lines.
- The downstream callback and its 101 watcher: pass-through with one prefix test. Claims about cut sessions are for the upstream direction.
- `plain` mode payload beyond being passed on in order.
- JSON.parse, String(number) and the bytes-to-string round trip of the handshake are parameters (`Engine.Env`); UTF-8 decoding is not part of this model. A parsed object has one field per key; of several the model reads the first.
- JavaScript strings are one char per UTF-16 unit; the upgrade pattern, being ASCII, is matched on bytes.
- Rounding of JavaScript numbers: rates, bursts and `limit` are reals, the other knobs integers; fractional values of those are not part of this model.
- One clock instant per callback and per command, where the code may read the clock several times.
- The engine-error catch: no step of the model can throw.
- Reading knobs from the policy string (`readCfg`, `num`, `keyset`, `policy`) and preset lookup; `Monotone.PresetsOrdered` instantiates the preset values.
- WholeSession.CutsDoNotMatter: assumes no read hits a cap; which read hits the read and size caps depends on the cutting by design.
- The receiver in `Relay` accepts length fields that are not minimal, and 64-bit lengths with the top bit set; the engine forwards the former and refuses the latter.
- Bash integer overflow of a ttl, malformed ttl arguments and addresses containing blanks. File lines with more than two fields.
- A pipeline component of a file rewrite dying on its own; the death of the whole process is modelled at every step.
- BanCache.CachedAnswerIsFresh: assumes that (mtime, size) determines a file's content and that reads of a present file succeed; `BanCache.Reader.LoadBans` models the unreadable case.
- LRU eviction of throttle buckets, eviction from the shared dictionary, a dictionary that is not configured, several CPUs, and races between guard processes: each guard command and each packet is one step.
- Parsing and printing of addresses: guard arguments arrive as IPv6, IPv4 or invalid.
- Throttle.PassedWithinRate: assumes that a full bucket plus what one pause between packets earns stays below 64 bits; `Throttle.Classifier.Classify` has the wrap-around.
- Failures of map system calls other than a full map; the read-back in `cmd_unban` cannot fail here.
- Backends.BackendsWithinOneSecond: assumes guard inserts succeed and both clocks advance together, as a fixed offset.
- Admission.WindowLetsInFirst: for a positive rate; 0 switches the counter off, and a negative rate lets nobody in (`Admission.Gate.ConnRateExceeded` covers all three).
- A connection window of 0, printed as Infinity in the key, is one endless window printed as 0; negative windows are not part of this model.
- Guard load, unload, status, watchdog, health, netlink and `tc`; the counter lines of `stats`.
- The fail2ban filters, the UI's HTTP server and collectors, install, build and rendering scripts.
