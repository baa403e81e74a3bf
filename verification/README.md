# Servatory: the serial link and its state machines, verified

Servatory is a daemon on a Proxmox host and a small display stick on its USB port. The daemon
sends health snapshots and manifests; the stick shows them and, when its button is held, asks
the daemon to shut the host down. The README of the repository promises that such a request is
never saved and replayed after a disconnected session.

This project models the link from bytes to the shutdown command, and the state machines around
it, and proves what they promise.

| file | what it models |
|---|---|
| `Cobs.dfy`, `Postcard.dfy`, `Utf8.dfy`, `Wire.dfy` | the frame codec, with the encoder and the in-place decoder over buffers, and its text |
| `FrameDecoder.dfy`, `UsbTx.dfy`, `Stream.dfy` | cutting the byte stream into frames, the transmit queue, and both composed |
| `Bytes.dfy` | the bytes of the device's direction below the link: every run of bytes written, lost and read is a run of the link |
| `Cuts.dfy` | a frame that a reset of the device cuts short, and the next one |
| `Stick.dfy`, `Reception.dfy`, `Clicks.dfy`, `Spinner.dfy` | the device's main loop: session, pages, shutdown screens; what it keeps of the frames it reads, what clicks do, and what moves on the shutdown screen |
| `Daemon.dfy` | the daemon's main loop: opening, handshake, manifests, snapshots, reading |
| `Sending.dfy` | what that loop sends and when: its snapshots and challenges, over whole runs |
| `Writing.dfy` | everything a turn of that loop writes, in order, and how the turn ends |
| `Manifests.dfy` | what the device has been shown before each snapshot, over whole runs of that loop |
| `Link.dfy`, `Recovery.dfy` | both sides and the two lines between them as one transition system, and getting back into a session |
| `LongPress.dfy` | the request of a long press: when it is handed over, and whether the device is still connected by then |
| `Turns.dfy`, `DaemonTurns.dfy`, `Joint.dfy` | the turns of the two loops as runs of that system, and both loops with the button in any order |
| `LoopRecovery.dfy` | getting back into a session, of the two loops with their one-second timers |
| `Shutdown.dfy`, `ShutdownReplies.dfy` | the reports of a shutdown, as a language, how the handler answers, and what the device shows of them |
| `EndToEnd.dfy` | a measurement from the daemon to the device; a long press, the link, the daemon, its shutdown handler and the device's screen, composed |
| `Pagination.dfy` | views compiled into pages, and the manifests |
| `Probe.dfy`, `ProbeSchedule.dfy` | the connectivity probe, its threads and its schedule |
| `Health.dfy`, `Notifications.dfy`, `NoticeRounds.dfy`, `NotificationRuns.dfy` | incidents, and the notification worker: its rounds notice by notice, and whole runs |
| `Settings.dfy` | the flash record with its checksum |
| `Interfaces.dfy`, `InterfaceMeaning.dfy` | finding the physical network interface, and what that means on a graph without cycles |
| `Button.dfy` | debouncing and the long press |
| `Protocol.dfy`, `Common.dfy` | messages, shared types and sequence facts |

Loops and objects that change step by step are classes and methods proved equal to a
specification function (`Abs()` before and after); the theorems are lemmas about those
functions over every run. Times are integers in milliseconds; a step that reads the clock
takes the reading as a parameter. I/O outcomes (writes, flash operations, commands, queries,
publishing) are parameters and may be any value.

COBS is modelled as in Cheshire and Baker, "Consistent Overhead Byte Stuffing", IEEE/ACM
Transactions on Networking, 1999; integers, strings and options are serialized as in the
postcard wire format, UTF-8 is table 3-7 of the Unicode standard, and the checksum is 32-bit
FNV-1a.

## What turned out false

Each of these has its exact condition, an if and only if, and a run or an input that shows it.

- A handshake that restarts while eight or more challenges of earlier openings are still on the
  line needs one more periodic Hello: the answers overflow the device's queue of eight
  (`Recovery.RecoveryWithoutLastHello`; `Recovery.LastHelloIsNeeded` is the run).
- A handed-over shutdown request was made by a connected device in the daemon's own session, but
  the device need not be connected any more when it is handled. In between, over every run, it
  is connected in its session all the time exactly if it is not reset, every frame it reads is
  an update, a manifest or undecodable, and its last update is less than fifteen seconds old
  whenever it looks (`LongPresses.ConnectedWhenHandled`). Inputs on which it is not, although
  its last update is in time or it has not looked: `LongPresses.ForeignFrameInBetween`,
  `LongPresses.ResetInBetween`, and the run `LongPresses.RepeatedChallengeInBetween`.
- If the network manifest fails right behind a new display manifest, the cache and its page
  count disagree until a full update repairs them. Snapshots are shown behind the right
  manifests exactly if none goes out at an unchanged page count in between
  (`Manifests.SnapshotsAreShownRight`; `Manifests.TornUpdateShowsWrongManifest` is the run).
- A health rule may have the severity healthy; its incident is never announced but is announced
  as recovered (`NotificationRuns.NotificationBalance`;
  `NotificationRuns.HealthyRuleUnbalances` is the run).
- After exactly 2^32 link changes during one probe, that probe's result is taken for a current
  one (`ConnectivityProbe.StaleResults`; `ConnectivityProbe.WrappedGenerationIsBelieved` is the
  run).
- A count of no guests does not end the guest monitor if it is the first count: another query
  follows, and its count is reported (`Shutdown.ZeroEndsTheMonitor`; `Shutdown.GuestsBehindZero`
  is the host).

## Model

| member | source | states |
|---|---|---|
| Cobs.UnstuffOfStuff | protocol/src/lib.rs:779-780 | decoding an encoded body gives the payload back; the body holds no zero byte and is longer than the payload by one code per 254 bytes at most |
| Cobs.StuffInto | protocol/src/lib.rs:773-783 | the encoder writes exactly the encoded body and its delimiter behind `start`, and fails exactly if they do not fit, patching codes in the caller's buffer |
| Cobs.UnstuffInPlace | protocol/src/lib.rs:795-799 | the in-place decoder leaves exactly the decoded payload at the front of the frame, or fails exactly on malformed bodies, although it overwrites what it reads |
| Postcard.VarintRoundTrip | protocol/src/lib.rs:779-795 | integers read back with what follows them left over, within the byte limit of their type |
| Postcard.VarintIsItsDigits | protocol/src/lib.rs:779-795 | an integer is written as the shortest base-128 digits that say it, least significant first, ended by the one byte with a clear top bit |
| Postcard.TakeReadsTheDigits | protocol/src/lib.rs:795 | bytes are read as an integer exactly if its digits end in time with a last digit within the type's bound; the value is what the digits say, and the rest is left over |
| Postcard.TakeVarintInRange | protocol/src/lib.rs:795 | whatever bytes are read as an integer, the value fits the integer type |
| Postcard.StringRoundTrip | protocol/src/lib.rs:779-795 | length-prefixed UTF-8 strings read back with what follows them left over |
| Utf8Text.Utf8IsEncodedScalars | protocol/src/lib.rs:779-795 | a byte string is accepted as a string if and only if it is the encoding of some Unicode scalar values |
| Wire.Encode | protocol/src/lib.rs:773-783 | encoding into a buffer yields the frame of the payload, or the serialize error exactly if it does not fit |
| Wire.Decode | protocol/src/lib.rs:785-805 | decoding the buffer in place yields what the specification says of every byte string: message, legacy version, or the error |
| Wire.FrameIsDelimited | protocol/src/lib.rs:773-783 | every frame ends in its only zero byte; it is five bytes longer than the payload, and one more for every 254 payload bytes at most |
| Wire.DeviceRoundTrip | protocol/src/lib.rs:754-783 | decode(encode(m)) = m for every device message |
| Wire.PayloadRoundTrip | protocol/src/lib.rs:740-745 | the same for every payload, so for host messages with any serializer |
| Wire.OnlyThisVersionIsAccepted | protocol/src/lib.rs:786-796 | a message is only ever decoded from a frame with the magic and this version |
| Wire.LegacyVersionIsReported | protocol/src/lib.rs:798-804 | every legacy body that starts with a version other than 0x5a, whatever follows, is reported as that version and never taken for a current frame |
| Wire.RequestByteForByte | protocol/src/lib.rs:773-783 | a shutdown request on the wire, byte for byte |
| Wire.FramesByteForByte | protocol/src/lib.rs:773-783 | an unacknowledging and an acknowledging Hello on the wire, byte for byte: magic, version, COBS codes, tags, length-prefixed version string, varint nonce, delimiter |
| Wire.HelloFitsExactly | protocol/src/lib.rs:13-15 | a device Hello with any nonce fits the frame limit exactly if its version string has at most 110 bytes |
| FrameDecoding.FrameDecoder.Push | protocol/src/lib.rs:828-856 | one byte moves the buffer, length and discarding flag exactly one step of the splitting automaton and returns its event; every index is in bounds for every capacity including zero |
| FrameDecoding.DecoderRefinesSplitting | protocol/src/lib.rs:807-856 | for every stream and capacity the events are those of splitting at zeros and classing each segment as empty, fitting or too long |
| FrameDecoding.ResynchronisesAtZero | protocol/src/lib.rs:829-836 | behind any garbage that ends in a zero, from any state, the decoder does what a fresh one does |
| FrameDecoding.JoinAnywhere | host/src/main.rs:204-219 | joining a stream of frames at any byte yields exactly the frames that start later |
| UsbTransmit.UsbTx.EnqueueMessage | firmware/src/main.rs:144-153 | a full queue refuses a message, except a shutdown request, which displaces the oldest entry |
| UsbTransmit.UsbTx.PollOnce | firmware/src/main.rs:155-182 | a poll loads the next frame when none is open and writes on from the cursor until the peripheral refuses |
| UsbTransmit.TransmitIsFaithful | firmware/src/main.rs:127-183 | over every interleaving and refusal pattern the bytes written and the unsent rest are the frames of the dequeued messages in order, and nothing is duplicated or reordered |
| UsbTransmit.OffersFillTheQueue | firmware/src/main.rs:144-153 | between two polls the first messages offered take the free places, of those behind them exactly the shutdown requests get in, and the eight newest of all these are left |
| UsbTransmit.RequestIsNeverCrowdedOut | firmware/src/main.rs:144-153 | a queued shutdown request stays queued until it is put on the line |
| UsbTransmit.ShutdownRequestFits | firmware/src/main.rs:161-163 | a shutdown request never fails to encode |
| UsbTransmit.PollsEmptyTheQueue | firmware/src/main.rs:155-182 | nothing is held back: as many polls as there are queued messages put all of them on the line, if the peripheral takes a frame at a time |
| Stream.EndToEnd | firmware/src/main.rs:144-182 | the daemon's decoder yields exactly the completed messages, in order, once each, for every interleaving and refusal pattern |
| Stream.JoinMidStream | host/src/main.rs:204-222 | a daemon that opens the port at any byte decodes every message whose frame starts later and nothing else |
| Stream.SerialInput.Accept | host/src/main.rs:206-222 | one byte through the daemon's input path: skipped up to the first delimiter, then given to a fresh decoder, whose frames are decoded in place |
| Stream.AcceptIsJoining | host/src/main.rs:206-222 | that input path computes the joining of the previous row over every stream |
| Bytes.EnqueueIsQueued | firmware/src/main.rs:144-153 | offering a message to the transmit queue is queueing it in the link, the displaced entry of a full queue included |
| Bytes.LoadIsEmit | firmware/src/main.rs:155-166 | starting a frame is the link's step that puts a line on the way; one that does not fit a frame is a lost line |
| Bytes.BytesAreALinkRun | host/src/main.rs:204-281 | every run of messages offered, frames written as far as the peripheral takes them, bytes lost while the port is closed, openings at any byte, and bytes read one by one through the decoder into the daemon's session is a run of the link, and stays tied to it |
| Bytes.BytesNeverReplay | README.md:169-170 | no replay, from the bytes: what the daemon decodes and handles is, one for one, requests queued by the connected device under the nonce and in the opening they are handled in; in order and none twice; and agreement |
| CutFrames.ResetInMidFrame | firmware/src/main.rs:155-182 | a frame cut short anywhere by a reset, with whatever frame or further cut frames follow: the frames before and behind are received as ever, the two together yield one result, and it is never a shutdown request |
| CutFrames.CutHelloIsAnotherHello | host/src/main.rs:222-253 | but that result can be a Hello for another challenge, on a concrete input |
| Stick.MainLoop.RunTurn | firmware/src/main.rs:350-578 | one turn of the device loop, with any number of frames in its inbox, leaves all thirteen variables as the periodic Hello, the frames in order, the age check, the button and the timers do in this order, and queues exactly their Hellos and request |
| Stick.MainLoop.HandleFrame | firmware/src/main.rs:373-459 | a frame is a challenge, session data, foreign or undecodable; data without a session is ignored |
| Stick.MainLoop.HandleButton | firmware/src/main.rs:472-534 | a click moves the page, opens or leaves the about screen or only cancels the animation; a request is queued exactly for a long press while connected |
| Stick.MainLoop.HandleShutdownTimers | firmware/src/main.rs:536-578 | the lost connection, the missing reports and the spinner, in this order, each in exactly the screens it applies to |
| Stick.EveryRunIsSound | firmware/src/main.rs:350-578 | in every run: Connected and PoweringOff imply a session, Stale implies none, Connected implies a snapshot, the page exists |
| Stick.SilentLadder | firmware/src/main.rs:536-578 | over every run without messages while powering off the screens only descend, a failure stays, and the last count is never altered |
| Stick.ReportsAreMissedOnTime | firmware/src/main.rs:556-566 | over every silent run the reports count as lost exactly if at some turn the last report was three seconds old, or the connection is lost |
| Stick.LinkLossIsConfirmed | firmware/src/main.rs:536-550 | over every silent run the connection counts as lost exactly if at some turn it had been missing for two seconds, at every turn of them, a loss noted before the run included |
| Stick.SilentScreens | firmware/src/main.rs:536-566 | both, of the loop itself: which of the two screens it shows behind any number of silent turns |
| Reception.RunKeepsTheLatest | firmware/src/main.rs:394-452 | over every run of the device loop it keeps the last snapshot and the last LCD manifest that it heard in a session, told by a scan of the frames, and without one the one it had |
| Reception.LatestIsLast | firmware/src/main.rs:390-401 | that scan is exact: what it names is the last frame of its kind behind a challenge or in a session that stood before |
| Reception.InboxTells | firmware/src/main.rs:378-458 | of the frames of a turn, the session is the last challenge's, the host was last heard at the last snapshot or progress report behind it, and the mode is that of the last frame that decides it |
| Spinner.OnlyTheSpinnerMoves | firmware/src/main.rs:536-578 | over every silent run at whose end the host is not given up, the screen is the one at its start, but for the power-off spinner, which has moved a frame for every quarter of a second that a turn found past |
| Spinner.SpinnerIsInItsFrames | firmware/src/main.rs:569-578 | over every run from power-up the spinner is in one of its four frames |
| Reception.InboxShows | firmware/src/main.rs:403-443 | of the frames of a turn, the shutdown screen is that of the last report heard, phase by phase, and the connection counts as seen and the spinner as restarted by them; nothing of the button's is touched |
| Reception.InboxPages | firmware/src/main.rs:444-449 | a page stays while the manifest has it, and is counted around otherwise |
| Reception.ReportIsOnScreen | firmware/src/main.rs:403-443 | a report that is the last frame of its turn is on the screen when the turn ends, whatever timers and button do |
| Clicks.OneClick | firmware/src/main.rs:474-496 | a click that ends the shutdown animation does nothing else, one on the about screen leaves it, one within 200 ms of another opens it, and any other turns the page |
| Clicks.SlowClicksTurnPages | firmware/src/main.rs:474-496 | over every run of clicks that are not double clicks each turns to the next page, around the manifest's pages |
| Clicks.DoubleClick | README.md:161-163 | a double click opens the about screen one page on, and the next click leaves it for that page and is not half of another double click |
| Clicks.AnimationRuns | firmware/src/main.rs:517-534 | the shutdown animation runs exactly while the button is held long enough in a session |
| Link.NextKeepsInvariant | host/src/main.rs:81-298 | every step of either party, of the lines, of a reset or of a reopening keeps the link invariant |
| Link.NoReplay | README.md:169-170 | in every run each request handed over was queued by a connected device whose session was the nonce it is handled under, during that same opening; requests are handled in order and at most once |
| Link.Agreement | host/src/main.rs:222-253 | while the daemon holds the handshake, the device's session is its nonce or none, and every challenge under way carries it too |
| Recovery.RecoveryCompletes | host/src/main.rs:117-129 | from every state of the invariant with the port open and synchronised, whatever is on the lines, Hello, challenge, answer and Hello establish the handshake on both sides; exactly the requests behind which the handshake stands are handed over meanwhile |
| Recovery.EveryReachableStateRecovers | firmware/src/main.rs:353-359 | no state that a run reaches with the port open and synchronised is a deadlock: Hellos, challenges, and frames sent and read, and nothing else, establish the handshake from it; nothing is handed over unless a request of this session and opening is on the line |
| Recovery.EveryOpenPortRecovers | host/src/main.rs:206-219 | the same from every state that a run reaches with the port open, synchronised or not |
| Recovery.RecoveryWithoutLastHello | firmware/src/main.rs:144-153 | the last Hello of that schedule is not needed if and only if the handshake holds after the first one, told from the state before it, or fewer than eight older challenges are on the line |
| Recovery.LastHelloIsNeeded | host/src/main.rs:81-129 | a run that needs it: eight openings closed unanswered, and a ninth |
| LongPresses.PressIsHandled | host/src/main.rs:254-265 | a connected device's long press, from every state of the invariant with the port open and synchronised, whatever is on the lines: once the queue has drained its request is handed over, last and with the right origin, if and only if the handshake stands behind the frames ahead of it, less the one that a full queue gives up; the age check in between does not matter to that, and decides whether the device is still connected |
| LongPresses.ConnectedThroughout | firmware/src/main.rs:373-468 | over every run a device stays connected in its session if and only if it is not reset, every frame it reads is harmless, and its last update is in time whenever it looks |
| LongPresses.ConnectedWhenHandled | firmware/src/main.rs:462-468 | over every run between a press and the handover of its request: handed over in the session and opening it was made in; connected all the time exactly as in the previous row, and, if nothing is read and nothing reset, connected at the handover if and only if every age seen was below fifteen seconds |
| LongPresses.ForeignFrameInBetween | firmware/src/main.rs:454-457 | an input on which the request is handed over while the device shows an incompatible host, its last update in time |
| LongPresses.ResetInBetween | firmware/src/main.rs:319-348 | an input on which it is handed over after a reset |
| LongPresses.RepeatedChallengeInBetween | host/src/main.rs:234-252 | a run from the start in which it is handed over while the device waits, challenged again by the same opening |
| TurnRefinement.TurnIsARun | firmware/src/main.rs:350-578 | every turn of the device loop is this run of the link's steps over the frames that arrived: it queues exactly its Hellos and its request and touches nothing else, handovers included |
| DaemonRefinement.TurnIsARun | host/src/main.rs:81-298 | every turn of the daemon loop, the shutdown handler's reports included, is this run of the link's steps: it takes exactly its frames off the line, hands over exactly the requests it handles, writes exactly its messages, and touches nothing else |
| Joint.RunIsALinkRun | host/src/main.rs:81-298 | every interleaving of turns of the two loops, with the button, resets, restarts, reopenings and faults, is a run of the link, and the loops stay in step with it |
| Joint.LoopsNeverReplay | README.md:167-170 | over all of them the requests that the daemon loop handles are, one for one, requests that the device loop queued while connected, with the nonce of the port session they are handled in, during that opening, at a press held for the configured time; in order and none twice |
| Joint.OneRequestPerPress | firmware/src/main.rs:472-517 | over all of them each request queued is the long press of a settled press of its own, numbered since the reset before it, so no two requests queued and no two handled are of the same press |
| Joint.LoopsAgree | host/src/main.rs:222-253 | agreement, of the two loops themselves |
| LoopRecovery.LoopsRecover | host/src/main.rs:117-129 | from every state that they reach with the daemon running and its port open, whatever is on the lines, at most six cycles of one turn each a second apart, at most sixty rounds, establish the handshake on both sides, through the gates of both one-second timers |
| Daemon.MainLoop.RunTurn | host/src/main.rs:81-298 | one turn changes all loop variables, writes these messages and ends this way, for every combination of failing writes |
| Daemon.MainLoop.UpdateManifests | host/src/main.rs:161-189 | the manifest update: which of the two manifests are written and cached, and whether the page count advances, for every combination of failures of the two writes |
| Daemon.MainLoop.ReadFrames | host/src/main.rs:220-281 | the frames of one read: synchronisation, acknowledgements that establish or drop the handshake, and only in an established one requests, with what the shutdown handler writes and decides for each |
| Sending.TurnSends | host/src/main.rs:117-200 | every snapshot a turn writes is the one it was given, whole, and it writes one if and only if it gets there; every challenge is for the session's nonce, one if and only if one is due |
| Sending.TurnTimes | host/src/main.rs:117-253 | a snapshot puts the next one off by the interval and a completed handshake makes one due at once; a challenge puts the next one off by a second and a Hello for another session makes one due at once |
| Sending.SnapshotsKeepTheirDistance | host/src/main.rs:190-234 | in every run two snapshots lie at least the interval apart unless a handshake was completed in between |
| Sending.ChallengesKeepTheirDistance | host/src/main.rs:117-252 | in every run two challenges lie at least a second apart unless the port was opened or a Hello for another session heard in between |
| Writing.TurnWrites | host/src/main.rs:117-281 | everything a turn writes, in order: the challenge if due, the manifests owed, those to be replaced, the snapshot, and behind them, only if all these went out, the shutdown handler's reports |
| Writing.TurnEnds | host/src/main.rs:161-298 | the process ends if and only if a manifest that is needed cannot be compiled or the handler's first verdict says so; the port stays open if and only if every write attempted and the reading succeed and the handler does not give it up |
| Writing.OpeningStartsAnew | host/src/main.rs:81-128 | an opening's first turn writes the challenge for the new nonce and nothing else, owes the manifests again and keeps the cache |
| Manifests.ManifestsPrecedeSnapshots | host/src/main.rs:140-199 | in every run both manifests are written between the handshake and a snapshot |
| Manifests.SnapshotsAreShownRight | host/src/main.rs:140-199 | over every run the cache is current if and only if no torn update is unrepaired, and every snapshot is shown behind the manifests for its number of guests if and only if none goes out at an unchanged page count between a torn update and its repair |
| Manifests.UpdateKeepsCache | host/src/main.rs:161-189 | behind an update the cache is current if and only if every differing manifest went out, or it was current and not just the display manifest of two differing ones went out |
| Manifests.UpdatePrepares | host/src/main.rs:161-189 | what a snapshot is shown behind is right if and only if the page count was new or the cache was current |
| Manifests.TornUpdateShowsWrongManifest | host/src/main.rs:166-175 | a run from the start of the daemon, with a reconnection in between, whose last snapshot is shown behind the wrong manifest |
| Shutdown.EventHandler.Handle | host/src/lib.rs:254-277 | which reports arrive and how the handler answers, for every host and every pattern of failing writes; nothing is written without permission |
| Shutdown.Poweroff | host/src/lib.rs:79-123 | what arrives is the reports of this host up to the first failed write; it finishes exactly if all arrive, the command was taken and the monitor ended |
| Shutdown.MonitorGuests | host/src/lib.rs:126-148 | the polling loop writes the reports of the counts up to the first zero or failed query, and returns the last count |
| Shutdown.ReportsFit | host/src/lib.rs:79-123 | every host's reports are a sentence of the report grammar; it ends with PoweringOff exactly if the command was taken and monitoring ended, and with a failure exactly if it was refused |
| Shutdown.WhatArrivesFits | host/src/lib.rs:185-234 | so is what arrives under any failing writes; the process stops only behind a PoweringOff report |
| Shutdown.EverySentenceArrives | host/src/lib.rs:79-148 | the grammar is exact: every sentence of it arrives from some host over some line |
| Shutdown.ReportsAreOrderly | host/src/lib.rs:79-148 | Accepted first, phases in order, the total constant, GuestsStopped only behind a zero count, PoweringOff or a failure last and with the last reported count, and another count behind a zero count only if that was the first |
| Shutdown.ZeroEndsTheMonitor | host/src/lib.rs:126-148 | a zero count is the last one if and only if it is not a first count behind which the command is taken and the next query succeeds |
| Shutdown.GuestsBehindZero | host/src/lib.rs:126-148 | such a host: no guests at first, and then any number |
| Shutdown.DeviceShowsLastReport | firmware/src/main.rs:397-440 | over every run of the device loop that receives such reports it shows the shutdown with the last reported count |
| ShutdownReplies.ReplyMeans | host/src/lib.rs:254-277 | the process stops if and only if every report was written, the command taken, and there was no count to begin with or a query failed or counted nobody; it drops the port if and only if the acknowledgement failed; otherwise it goes on, or is still at work |
| ShutdownReplies.ArrivedUpToFailure | host/src/lib.rs:203-220 | what arrives is everything up to the first write that fails, with its own message if only the flush failed |
| ShutdownReplies.CountsAreTheAnswers | host/src/lib.rs:79-148 | the counts reported are the first one and, behind a taken command, the answers to the queries up to the first that fails or counts nobody |
| EndToEnd.HandedRequests | host/src/main.rs:220-281 | whatever frames the daemon reads, with a host for each request: for those it hands over it writes a sentence of the report grammar each, in order; it ends exactly if the last of these shutdowns concluded with every report written, and then that report is PoweringOff |
| EndToEnd.PressReachesTheScreen | README.md:165-170 | from every state of the invariant with the port open and synchronised, a connected device and a handshake that stands behind the frames ahead, by one spelt-out schedule of a long press, the reads, the handler's reports under any failing writes, and their reception: the handovers grow by exactly this request with its origin, and the device shows the last report that arrived, the host powering off if the shutdown concluded |
| EndToEnd.MeasurementReachesTheDevice | host/src/main.rs:190-195 | whenever the daemon sends a snapshot, a device in session whose turn receives what was written keeps that measurement with its incidents; otherwise it keeps the one it had |
| Pagination.CompilePages | host/src/config.rs:547-636 | the page loop, which stops at the first view that fails, yields the views' pages in order, and fails exactly if there are no views or some view is unknown or does not compile |
| Pagination.ResolveIndices | host/src/config.rs:821-843 | indices are found for all ids or the call fails |
| Pagination.ResolvedIndicesPointBack | host/src/config.rs:821-843 | the call succeeds exactly if every id is among the first 2^32 items, and each index points at the first item with the id |
| Pagination.StorageViewConserves | host/src/config.rs:571-616 | the pages of a storage view show the resolved lists in order without loss or repetition, 3 and 5 a page as long as there are so many left, and no page is empty but a single one when both lists are |
| Pagination.GuestWindowsPartition | host/src/config.rs:559-570 | the pages of a paginated guest view show every guest exactly once, in order, four a page |
| Pagination.PagesChangeWithGuestPageCount | host/src/main.rs:329-331 | equal page counts give equal pages, and with a paginated view different page counts give different pages |
| Pagination.DisplayManifest | host/src/config.rs:526-543 | there is an LCD manifest exactly if the views compile and the hold time fits the device and exceeds the animation delay; it carries these times and at least one page for every view |
| Pagination.NetworkManifest | host/src/config.rs:638-683 | there is a Wi-Fi manifest exactly if there is no dashboard or its own views compile; it carries the notification settings and the dashboard's own address and pages |
| Pagination.ViewShows | host/src/config.rs:559-633 | a view compiles exactly if it is known and can be laid out; all its pages carry its title and are what its layout asks for |
| Pagination.ViewsStandInOrder | host/src/config.rs:556-636 | the views compile exactly if each does, and each one's pages stand together behind those of the views before it |
| ConnectivityProbe.ProbeState.PrepareProbe | host/src/health.rs:618-637 | a snapshot with a link change resets status, counter, grace and schedule under a new generation; it starts a probe exactly if none is in flight and the time has come |
| ConnectivityProbe.ProbeState.RecordResult | host/src/health.rs:639-661 | a result always clears the flag and otherwise counts only under its own generation: success, pardoned failure, or saturating failure |
| ConnectivityProbe.AtMostOneProbe | host/src/health.rs:692-715 | in every interleaving at most one probe is under way and the flag says whether one is |
| ConnectivityProbe.StaleResults | host/src/health.rs:639-643 | a result of before a link change is taken for current if and only if the changes since are a multiple of 2^32; otherwise it only clears the flag |
| ConnectivityProbe.StateIsTruthful | host/src/health.rs:618-661 | in every interleaving status, counter, grace and last success are those of the results of probes started since the last link change, the first failure behind a link-up not counted |
| ConnectivityProbe.StatusMeansThreshold | host/src/health.rs:650-659 | Failed exactly at the threshold and Missed strictly below it, of the true number of failures beyond what the counter holds |
| ConnectivityProbe.ProbesAreHeldBack | host/src/health.rs:618-653 | in every run no probe starts within the settle delay of a link-up, and the first failure that can count is of a probe started the retry delay later |
| ConnectivityProbe.WrappedGenerationIsBelieved | host/src/health.rs:628-643 | a run from the start of one probe and 2^32 link changes, behind which the stale failure is counted |
| ProbeSchedule.ProbesStartWhenDue | host/src/health.rs:618-637 | in every run a snapshot starts a probe, of the current link, if and only if none is under way and the next one is due, by the history of link changes, starts and the pardoned failure |
| Health.ValidateIds | host/src/config.rs:720-737 | accepts exactly lists of well-formed, pairwise different ids, and names the first offender otherwise |
| Health.EvaluateHealth | host/src/config.rs:684-718 | the incidents are those of the rules that fire, one for each and in order, with the rule's identifier, severity and message; the primary report is the first one of the gravest level there is, or the default |
| Health.RaisedDistinct | host/src/config.rs:684-737 | incidents of validated rules have distinct identities |
| Health.IdLimits | host/src/config.rs:720-737 | the limits of an identifier on concrete ones |
| Notifications.NotificationWorker.RunRound | firmware/src/network.rs:1594-1691 | one round of three loops enqueues announcements, repeats and recoveries in this order, moves the repeat timer, publishes at most the oldest notice, and remembers the incidents even when ntfy is off |
| Notifications.PushAllKeepsNewest | firmware/src/network.rs:1696-1701 | pushing any number of notices keeps the newest eight |
| NoticeRounds.RoundEnqueues | firmware/src/network.rs:1600-1671 | everything a round enqueues, notice by notice with text, priority and order: the test, the start notices of what is new or has risen to a wanted level, the repeats of the critical ones if due, and the recoveries |
| NoticeRounds.RoundRepeats | firmware/src/network.rs:1628-1657 | in a round that repeats, an identity is repeated once if and only if it is present and critical, and in no other round; a round repeats exactly if an interval is set, some incident is critical, and the timer has run out |
| NoticeRounds.TimerAfterRound | firmware/src/network.rs:1632-1657 | the repeat timer behind a round, in every case |
| NoticeRounds.CriticalsAreRepeatedInTime | firmware/src/network.rs:1632-1651 | over every run: critical incidents that last for the interval are repeated within it |
| NoticeRounds.RoundPublishes | firmware/src/network.rs:1672-1701 | the oldest notice is published and leaves the queue exactly if ntfy is on, there is one, and publishing succeeds |
| NoticeRounds.NotifiableMeans | firmware/src/network.rs:911-937 | what the worker is told: nothing before the first snapshot, then its incidents, behind the lost host while the last update is 15 seconds old |
| NotificationRuns.NotifiableDistinct | firmware/src/network.rs:911-937 | what the worker sees has distinct identities, and the host counts as lost exactly if there was a snapshot and it is 15 seconds old |
| NotificationRuns.RoundNotices | firmware/src/network.rs:1612-1671 | in one round an identity gets one start notice exactly if it appeared or rose at a selected severity, and one recovery notice exactly if it disappeared and they are wanted |
| NotificationRuns.LedgerBalances | firmware/src/network.rs:1594-1692 | over every run with any configuration, appearances less disappearances, announced or not, are 1 while active and 0 otherwise |
| NotificationRuns.NotificationBalance | firmware/src/network.rs:1594-1692 | with everything selected, start notices less recovery notices are 1 exactly while active, if and only if the identity never appeared at the level healthy |
| NotificationRuns.HealthyRuleUnbalances | firmware/src/network.rs:1612-1618 | a run of two rounds that breaks the balance |
| NotificationRuns.QueueKeepsOrder | firmware/src/network.rs:1672-1701 | in every run the queue is the end of what was enqueued, at most eight, and what was published is an in-order part of it |
| NotificationRuns.NothingDropsWithRoom | firmware/src/network.rs:1672-1701 | while the queue has room a round loses nothing: what it publishes and keeps is what was there and what it enqueued |
| NotificationRuns.RepeatsKeepTheirDistance | firmware/src/network.rs:1632-1657 | for a constant interval any two batches of repeats lie at least the interval apart |
| Settings.OneByteChangesChecksum | firmware/src/provisioning.rs:121-125 | payloads that differ in exactly one byte have different checksums |
| Settings.PublishedChecksums | firmware/src/provisioning.rs:121-125 | the checksum agrees with two published values of 32-bit FNV-1a |
| Settings.PrimeIsInvertible | firmware/src/provisioning.rs:121-125 | multiplying by the prime modulo 2^32 is undone by its inverse |
| Settings.SettingsRoundTrip | firmware/src/provisioning.rs:103-104 | the serialized settings read back, for every lawful serializer of the network manifest |
| Settings.SaveThenLoad | firmware/src/provisioning.rs:59-119 | every settings value that can be saved is loaded unchanged |
| Settings.RecordLayout | firmware/src/provisioning.rs:103-119 | the record byte for byte: magic, version, length, checksum, payload, blanks |
| Settings.ValidityLimits | firmware/src/provisioning.rs:28-46 | the limits of the four fields on concrete ones |
| Settings.OneByteOfDamage | firmware/src/provisioning.rs:59-79 | a change of one byte outside the length field is noticed, or lies in a byte the record does not use and changes nothing |
| Settings.LengthDamage | firmware/src/provisioning.rs:62-77 | a changed length byte goes unnoticed if and only if the record of the other length is in range and has the same checksum |
| Settings.Store.Save | firmware/src/provisioning.rs:99-119 | succeeds exactly for valid settings that fit when the flash obliges, leaving exactly the record; a rejected value leaves the flash alone |
| Settings.Store.Load | firmware/src/provisioning.rs:59-79 | loads exactly what the record in the flash holds, and only valid settings, for any flash content |
| Settings.Loaded | firmware/src/provisioning.rs:59-79 | whatever the flash holds, what is loaded is valid |
| Interfaces.ResolveInterface | host/src/health.rs:851-907 | the recursive walk, which extends one visited list along bonds and lower devices and copies it for bridge ports, terminates on every graph and agrees with the walk over visited sets in its result and in what it has visited |
| Interfaces.PickCandidate | host/src/health.rs:882-887 | sorting and taking the last maximum yields the one candidate that no other is preferred to |
| Interfaces.FoundIsReachable | host/src/health.rs:851-907 | what is found exists, is reached over active slaves, ports and lower devices, was not visited before and is not a bridge |
| Interfaces.BridgeTakesTheBest | host/src/health.rs:870-888 | a bridge resolves exactly if some port does, and then to the best (physical, up, speed, name) among what its ports resolve to |
| Interfaces.BestPortOutdoesOthers | host/src/health.rs:883-887 | that best is physical where another is not, or else up, or else faster, or else later in lexicographic order of the names |
| Interfaces.BondTakesItsSlave | host/src/health.rs:861-868 | a bond takes what its active slave resolves to, if that resolves |
| Interfaces.OthersTakeTheirLower | host/src/health.rs:890-906 | an interface that is no bridge and whose slave does not resolve takes what its lower device resolves to, if that resolves, and is itself what is found exactly otherwise |
| Interfaces.NothingFound | host/src/health.rs:851-906 | nothing is found if and only if the interface was visited or does not exist, or is a bridge of which neither slave nor port resolves |
| InterfaceMeaning.AcyclicWalkIsMeaning | host/src/health.rs:851-907 | on a graph without cycles the walk with its visited list finds exactly what the graph means, by a definition without it |
| InterfaceMeaning.FoundIsPhysical | host/src/health.rs:847-849 | without cycles and empty bridges, what is found has neither an existing active slave nor an existing lower device, and is no bridge |
| InterfaceMeaning.EmptyBridgeBelow | host/src/health.rs:870-906 | with an empty bridge below it a VLAN is itself what is found, on a concrete graph |
| Interfaces.ListingDoesNotMatter | host/src/health.rs:870-888 | the order in which ports are listed, anywhere in the graph, does not change the result |
| Button.PushButton.Observe | firmware/src/main.rs:211-246 | one sample updates the raw level, then the settled level, then the hold, and yields at most one action |
| Button.SteadyLevelIsTaken | firmware/src/main.rs:217-225 | a level seen without interruption for the debounce time is taken over |
| Button.ChangesAreSteady | firmware/src/main.rs:217-225 | only such a level is taken over |
| Button.OneActionPerPress | firmware/src/main.rs:211-246 | in every run the k-th action belongs to the k-th settled press, and every press that is over had one |
| Button.ActionsAreEarned | firmware/src/main.rs:223-245 | a request comes exactly while its press is held, the hold time or more after it settled; the short action exactly at the settled release |
| Button.PressCountsFromSettling | firmware/src/main.rs:217-252 | a press counts from the sample at which it settled, and is shown as held from then on until it has made its request |
| Button.HeldPressIsRequested | firmware/src/main.rs:235-245 | a press held for the hold time has made its request by the next undisturbed sample |

## Left out

- Drawing, fonts, icons, the QR code and the framebuffer: the model ends at the screen to show.
- Wi-Fi, DHCP, TLS, the web server and its bounded HTML buffer, ntfy publishing: success or failure is a parameter.
- Subprocesses and the parsing of their output: guest counts, link states and conditions of rules enter as values.
- The place where incidents enter a snapshot: the daemon's loop sets them by `Health.EvaluateHealth` right before sending, here the measurement it is given carries them already.
- YAML, layout recognition and frame budgets of manifests: the model starts from a validated configuration.
- The serializer of host messages: frames of host messages are modelled for any payload, and above that messages travel whole; their size limit of 4096 bytes is not modelled.
- Damage on the line: a damaged frame decodes to an error in `Link`; that damage could decode to another valid message is not modelled.
- Fresh nonces: two openings never have the same nonce in `Link`; how the nonce is made from the clock and process id is not modelled.
- A shutdown whose guest monitor has not come to an end: the daemon's turn then has not either, and `EndToEnd.HandedRequests` is about turns that end; what arrived up to then is covered by `Shutdown` and `EndToEnd.PressReachesTheScreen`.
- Fields nothing decides on: daemon and firmware versions shown, the reason of a failure (there is one), measurements in a snapshot other than guests and incidents, logging.
- Poisoned mutexes of the probe, and the age of the last success that a snapshot reports with it.
- A failed flash operation promises nothing about the sector; that the flash only clears bits when written is not modelled, since a write follows an erase.
- Settings.OneByteOfDamage: leaves the two length bytes to `Settings.LengthDamage`, because a record of another length is only rejected if its checksum differs, which no layout rule ensures.
- Stream.EndToEnd: a device reset in the middle of a frame is not part of the byte-level run, nor of `Bytes`; in `Link` it is a damaged or lost frame. That the cut frame and the next never make a request is `CutFrames.ResetInMidFrame`; that they can make a Hello with another nonce is `CutFrames.CutHelloIsAnotherHello`, and that this nonce is then the daemon's own is what `Link` leaves out.
- The version string in a Hello: empty in `Link` and `Bytes`, since nothing decides on it; which ones fit a frame is `Wire.HelloFitsExactly`.
- Shutdown handlers that stop the daemon during `LoopRecovery.LoopsRecover`: a request of this session on the line is answered there by a handler that goes on without a word.
- The mock host, which answers without a handshake, so that `Link.NoReplay` is not about it.
