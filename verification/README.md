# LIN stack: verified models

Dafny models of the parts of a C++ LIN (Local Interconnect Network) stack whose correctness is hardest to see
from the code, with proofs that hold for every input, every run or every reachable state.

`dafny verify dfyconfig.toml` checks everything.

## What is modelled

| files | subject | source |
|---|---|---|
| `Gf2`, `Crc16`, `CrcDetection` | polynomials over GF(2); the bitwise CRC-16/CCITT-FALSE as a polynomial remainder; which error patterns it misses | `src/safety/e2e.cpp` |
| `E2E`, `E2EDetection`, `E2ERuns` | the protected frame, sender and receiver; which changes the receiver refuses; whole runs over a channel that loses, repeats and reorders | `src/safety/e2e.cpp` |
| `Channel` | the bounded channel under any number of threads: mutex, two condition variables, spurious wakeups | `include/lin/channel.hpp` |
| `Delivery`, `Bus`, `BusRuns`, `BusCalls`, `BusLaws`, `BusCounters`, `BusProgress`, `BusObject` | the virtual bus: response table, filtered broadcast under three back-pressure policies, counters, close, the shared/exclusive lock | `src/virtual/bus.cpp` |
| `Lin`, `Checksum` | protected identifiers and checksums (sections 2.3.1.3 and 2.3.1.5 of LIN 2.2A) | `src/lin.cpp` |
| `Relay`, `Adapter`, `AdapterOnBus`, `AdapterObject` | the frame/message bridge, the adapter with its forwarding thread, and both joined to the bus | `src/lin.cpp` |
| `Decode`, `Text`, `Ldf`, `LdfLaws`, `LdfParser`, `LdfPrint`, `LdfReadBack` | signal extraction, the LDF parser, and a reference printer that the parser inverts | `src/ldf/parser.cpp` |
| `Base64` | the base64 codec (section 4 of RFC 4648) | `cli/json.hpp` |
| `Master`, `Slave` | the schedule loop and the response index | `src/master/node.cpp`, `src/slave/node.cpp` |
| `Bytes`, `Wrappers` | octets, bit strings, little-endian integers; optional values | |

Words that the source shifts and masks are bit strings, most significant bit first (`Gf2.Poly`), octets are
integers below 256, and every wrap of an unsigned type is written out. Objects that the source updates in place
are classes whose methods are proved against a step function; runs are sequences of such steps, taken by any
number of threads in any order, and the laws about runs are proved by induction over them. A thread's choice
that the source leaves open (which waiter a notification wakes, when a spurious wakeup happens) is part of the
step.

## Where the code differs from its documentation

The models follow the code.

* `include/lin/safety/e2e.hpp:12` lets the CRC be read as covering a ten-byte header with its slot zeroed; the
  code covers bytes 0-7 and the payload (`src/safety/e2e.cpp:50-68`).
* The receiver never reads bytes 0-3 of a frame (`src/safety/e2e.cpp:109`), so damage there is neither noticed
  nor harmful (`E2EDetection.IdBytesIgnored`), although `TARA.md:56` speaks of any single-bit corruption. From
  byte 4 on the claim holds. Likewise a foreign frame is refused when exactly one of the two identifiers
  differs, but there are pairs of configurations whose frames are accepted by each other
  (`E2EDetection.ForeignFrameAccepted`); `E2EDetection.ForeignPassesIff` says which.
* `include/lin/master/node.hpp:59` announces an error for an empty schedule; the code returns success.
* The same header says that the schedule is run until stop is set (`include/lin/master/node.hpp:55`). A load that
  sees it set ends the run exactly when it is a round or slot check (`Master.SeenSetEndsIff`); one that only cuts
  a slot's delay short does not, and if the flag is cleared again before the next check the run goes on
  (`Master.SetAndClearedMissed`).
* The adapter's own subscription always drops the newest frame when its port is full (`src/lin.cpp:198`), so that
  even a subscriber with Block can miss frames, without a gap in the sequence numbers
  (`AdapterOnBus.WholeWay`, `AdapterOnBus.BlockCanMissFrames`).
* `include/lin/lin.hpp:183` calls publishing empty data an error; the code removes the registration.
* `validate_frame` allows eight data bytes, the bus any number (`src/virtual/bus.cpp:45-57`);
  `Adapter.BridgeIdentityIff` shows that longer frames cross the bridge as well.
* Initial values and delays are read through a `double` (`src/ldf/parser.cpp:129`), so integers from 2^53 on
  need not be read exactly; the read-back theorem is stated below that bound.

## Model

| member | source | states |
|---|---|---|
| Crc16.UpdateByte | src/safety/e2e.cpp:23-27 | the inner loop is eight shifts of the register after the byte was added to its high octet |
| Crc16.Compute | src/safety/e2e.cpp:19-30 | the loop over a buffer gives the CRC of its first `len` bytes, which is CRC-16/CCITT-FALSE by its definition as a remainder |
| Crc16.CrcIsBitCrc | src/safety/e2e.cpp:22-28 | feeding bytes is feeding their bits one by one |
| Crc16.CrcIsRemainder | src/safety/e2e.cpp:19-30 | for bytes of any length, r is the CRC if and only if r is the remainder of the message bits times x^16, with ones added in the sixteen highest places, modulo the polynomial with coefficients at 16, 12, 5 and 0; both are spelled out coefficient by coefficient |
| CrcDetection.UndetectedIffMultiple | src/safety/e2e.cpp:19-30 | an error pattern over data and CRC goes unnoticed if and only if it is a multiple of the generator |
| CrcDetection.BurstDetected | src/safety/e2e.cpp:19-30 | no non-zero pattern inside 16 neighbouring bits goes unnoticed, at any length |
| CrcDetection.OddDetected | src/safety/e2e.cpp:19-30 | no pattern with an odd number of bits goes unnoticed |
| E2E.CoveredCrc | src/safety/e2e.cpp:50-68 | the second, inlined copy of the CRC loops computes CRC-16/CCITT-FALSE of header bytes 0-7 followed by the payload |
| E2E.BuildHeader | src/safety/e2e.cpp:33-74 | the buffer ends up as identifiers, counter and CRC, all little-endian, and the CRC field is CRC-16/CCITT-FALSE of the first eight bytes and the payload |
| E2E.WireLayout | src/safety/e2e.cpp:33-88 | the whole frame octet by octet, with its numbers and its CRC spelled out |
| E2E.CrcWordRoundTrip | src/safety/e2e.cpp:70-72 | the receiver reads the CRC field as the sender wrote it |
| E2E.Protector.Protect | src/safety/e2e.cpp:80-88 | one frame per call, carrying the counter, which advances modulo 2^32 |
| E2E.Receiver.Unwrap | src/safety/e2e.cpp:94-131 | the verdict and the receiver's new state: short, CRC mismatch, gap, or accepted with the payload |
| E2E.VerdictIff | src/safety/e2e.cpp:94-131 | for every frame and state which of the four verdicts is given, with its counter, in terms of octets 4-7, of the CRC field of the frame that the receiver would build, and of the last counter |
| E2EDetection.GenuinePasses | src/safety/e2e.cpp:33-114 | a frame passes the CRC check of a receiver with the same configuration, and its counter and payload are read back |
| E2EDetection.IdBytesIgnored | src/safety/e2e.cpp:94-131 | frames that agree from byte 4 on are treated alike |
| E2EDetection.TamperedPassesIff | src/safety/e2e.cpp:94-114 | a changed frame of the same length passes if and only if the difference from byte 4 on is an undetected pattern |
| E2EDetection.AdjacentBytesRejected | src/safety/e2e.cpp:94-114 | any change confined to two neighbouring bytes within the counter, the payload or the CRC field gives CRCMismatch and leaves the receiver alone |
| E2EDetection.OddFlipsRejected | src/safety/e2e.cpp:94-114 | any odd number of flipped bits from byte 4 on gives CRCMismatch |
| E2EDetection.ForeignPassesIff | src/safety/e2e.cpp:109-114 | a frame made under another configuration passes if and only if the difference of the identifiers is an undetected pattern, whatever counter and payload are |
| E2EDetection.OneIdentifierRejected | src/safety/e2e.cpp:109-114 | a receiver that differs in exactly one identifier refuses every frame |
| E2EDetection.ForeignFrameAccepted | src/safety/e2e.cpp:109-114 | with both identifiers different this can fail: two configurations of which one accepts every frame of the other |
| E2ERuns.RunInv | src/safety/e2e.cpp:80-131 | with threads interleaving between counter and transmission over a lossy, repeating, reordering channel: every frame on the wire and every accepted payload is one that was sent, under its own counter, and accepted counters are consecutive |
| E2ERuns.AcceptedIsSegment | src/safety/e2e.cpp:80-131 | while fewer than 2^32 were sent, the accepted payloads are one contiguous segment of the sent ones in counter order, so none is accepted twice |
| E2ERuns.ReplayAfterWrap | src/safety/e2e.cpp:117-127 | the bound is sharp: with 2^32 sent there is a run that accepts the first frame again |
| E2ERuns.RejectionsInvisible | src/safety/e2e.cpp:94-127 | in every run the rejected deliveries might as well not have happened: the same events without them are a run to the same state |
| E2ERuns.InOrderDelivery | src/safety/e2e.cpp:80-131 | delivered in order, the n-th unwrap returns the n-th payload for every n, across counter wraps |
| Channel.StepKeepsLedger | include/lin/channel.hpp:37-96 | every critical section keeps: removed items followed by the buffer are the pushed items, within capacity |
| Channel.StepKeepsWakeups | include/lin/channel.hpp:37-96 | every critical section and spurious wakeup keeps: un-notified receivers only while woken ones cover the buffered items, the same for senders and free slots, and nobody un-notified after close |
| Channel.RunInv | include/lin/channel.hpp:37-96 | ledger and no lost wakeup in every reachable state of any number of threads |
| Channel.RemovalsInRun | include/lin/channel.hpp:37-96 | in every run each removed item was at the front of the buffer when it left; it was evicted only by a sender that found the channel open and full |
| Channel.ReceiveReplies | include/lin/channel.hpp:70-88 | a receive hands out the front item, and exactly that is removed as received; when each call returns nothing or waits |
| Channel.SendReplies | include/lin/channel.hpp:37-67 | a send pushes its item exactly when it reports success; when each call reports full, evicted, closed, or waits |
| Channel.RepliesInRun | include/lin/channel.hpp:37-88 | in every run what all receives handed out, in order, is what left the channel as received, and what the sends reported as taken is what was pushed |
| Channel.QueuedMeansServed | include/lin/channel.hpp:39-76 | if a thread waits although it could go on, another one on its side can take a step that returns |
| Channel.StepWakes | include/lin/channel.hpp:37-96 | a successful send wakes exactly one queued receiver if there is one, a successful receive one queued sender, close everybody, and no other call anybody |
| Channel.ClosedDrains | include/lin/channel.hpp:38-96 | after close every waiting thread has been woken and its next step returns |
| Channel.ClosedForever | include/lin/channel.hpp:37-96 | in every run from close on nothing is pushed or evicted, and what was received since, followed by the buffer, is what was buffered then |
| Channel.BoundedChannel.SendPass | include/lin/channel.hpp:37-44 | one test of send's wait predicate: wait, closed, or pushed with one receiver notified; invariants kept |
| Channel.BoundedChannel.TrySend | include/lin/channel.hpp:47-54 | the whole call as one step with its result |
| Channel.BoundedChannel.SendDropOldest | include/lin/channel.hpp:59-67 | the whole call as one step: the oldest item goes when full, the new one is always queued |
| Channel.BoundedChannel.RecvPass | include/lin/channel.hpp:70-78 | one test of recv's wait predicate |
| Channel.BoundedChannel.TryRecv | include/lin/channel.hpp:81-88 | the whole call as one step, returning the front item if there is one |
| Channel.BoundedChannel.Close | include/lin/channel.hpp:91-96 | closes and wakes everybody |
| BusRuns.RunInv | src/virtual/bus.cpp:33-175 | in every reachable state of publishers, subscribers and concurrent headers, with each channel call and each counter increment as a step of its own: channels balanced, tries recorded, increments accounted for |
| BusLaws.DeliveriesConserved | src/virtual/bus.cpp:101-136 | at every moment deliver_count plus increments in flight is what was received from or is buffered in all channels ever subscribed |
| BusLaws.QuiescentTotals | src/virtual/bus.cpp:101-136 | with no header in progress deliver_count + drop_count is the number of (exchanged frame, matching subscriber) pairs |
| BusCounters.WritesCounted | src/virtual/bus.cpp:101-102 | at every moment write_count and bytes_written, with the increments still to be made, are the exchanged frames and their bytes |
| BusCounters.BytesDelivered | src/virtual/bus.cpp:109-133 | at every moment bytes_delivered, with the increments still to be made, is the bytes of all attempts counted as deliveries, whether evicted later or not |
| BusCounters.ErrorsCounted | src/virtual/bus.cpp:34-89 | error_count is the number of failed calls |
| BusCalls.PublishOutcome | src/virtual/bus.cpp:33-58 | every outcome of publish on its inputs, with its numbers spelled out, and that no other entry changes |
| BusCalls.HeaderOutcome | src/virtual/bus.cpp:72-99 | the three errors of send_header told apart, and otherwise the frame: registered data and type, a checksum that verifies under the protected identifier |
| BusCalls.SubscribeOutcome | src/virtual/bus.cpp:142-158 | the new port: filters, policy, and a channel of the requested depth or 64 |
| BusCalls.CountedAs | src/virtual/bus.cpp:108-134 | which counter each channel answer leads to under each policy |
| BusLaws.SubscriberView | src/virtual/bus.cpp:105-136 | with one master, between headers each subscriber was offered exactly the filtered log since it subscribed; Block and DropOldest push all of it, DropOldest buffers a suffix, DropNewest leaves out a frame only when its buffer was full |
| BusLaws.SubscriberIds | src/virtual/bus.cpp:20-26 | with one master, between headers a subscriber with no filter or one for every frame was offered the whole log since it subscribed, any other exactly the frames whose identifiers its filters name, in order |
| BusLaws.FilterAdded | src/virtual/bus.cpp:20-26 | one more filter never takes a frame away, unless it is the first one |
| BusLaws.BlockLosesNothing | src/virtual/bus.cpp:130-134 | for Block, received followed by buffered is the whole filtered log |
| BusLaws.ClosedStaysDrained | src/virtual/bus.cpp:168-175 | after close no frame is exchanged or enqueued again, and only receives take frames out |
| BusLaws.DrainsExactly | src/virtual/bus.cpp:168-175 | after close nothing is evicted, and what each consumer received since, followed by what is left, is exactly what was buffered at close; then comes the end of the stream |
| BusProgress.StuckIff | src/virtual/bus.cpp:72-136 | in every reachable state the headers in progress are stuck, with no receiver about to help, if and only if each waits at the full channel of a Block subscriber that nobody is receiving from |
| BusProgress.OneReceiveSuffices | include/lin/channel.hpp:37-88 | after any one receive at such a channel some header there has a next step that delivers its frame |
| BusProgress.ReceiverIsServed | include/lin/channel.hpp:70-78 | while a receiver is inside recv beside a buffered frame, one has been woken whose next step takes it |
| BusProgress.ExclusiveLockFree | src/virtual/bus.cpp:33-58 | without a header in progress publish, subscribe and close can run |
| BusObject.VirtualBus.DoPublish | src/virtual/bus.cpp:33-58 | the new table and error: range, closed, removal by empty data, classic forced on 0x3C and 0x3D |
| BusObject.VirtualBus.Subscribe | src/virtual/bus.cpp:142-158 | a new empty channel with the effective depth, or an error after close |
| BusObject.VirtualBus.Close | src/virtual/bus.cpp:168-175 | every subscriber's channel is closed, once |
| BusObject.VirtualBus.OfferBlocking | src/virtual/bus.cpp:108-134 | a channel call through all its waits, for whatever its subscriber does meanwhile: it ends with one try recorded and the policy's effect on the channel, or it still waits |
| BusObject.VirtualBus.SendHeader | src/virtual/bus.cpp:72-139 | an exchange offers the collected frame exactly once to every subscriber without filters, with one for every frame, or with one for its identifier, and to no other, with each policy's effect, and counts each offer once; a Block send that is never let through leaves the header at that subscriber, with those before it served and those after it untouched |
| Lin.VerifyPidIff | src/lin.cpp:23-37 | exactly the protected identifiers verify, each to its own identifier |
| Lin.AcceptedIffParity | src/lin.cpp:23-37 | for every octet: it verifies, to its six low bits, if and only if bits 0, 1, 2, 4, 6 hold an even and bits 1, 3, 4, 5, 7 an odd number of ones |
| Lin.ProtectIdParity | src/lin.cpp:23-28 | for every octet: protecting keeps its six low bits and makes both parities right |
| Lin.PidSingleBitError | src/lin.cpp:23-37 | any single flipped bit of a protected identifier is refused |
| Lin.ProtectIdRange | src/lin.cpp:23-28 | no protected identifier is 0x00 or 0xFF |
| Checksum.CalcChecksum | src/lin.cpp:41-53 | the loop stays within 16 bits and computes 255 minus the closed form ((total-1) mod 255)+1, 0 for total 0 |
| Checksum.ChecksumByBytes | src/lin.cpp:41-53 | the checksum of no data, classic and enhanced, and what one more byte makes of it |
| Checksum.EnhancedIsClassic | src/lin.cpp:43-45 | the enhanced checksum is the classic one of the identifier followed by the data, whatever identifier the classic one is given |
| Checksum.ChecksumAddsTo255 | src/lin.cpp:41-53 | the loop over the data followed by its checksum ends at 0xFF, so the checksum of the two is zero |
| Checksum.OrderIndependent | src/lin.cpp:41-53 | permuting the data changes nothing |
| Checksum.SameChecksumIff | src/lin.cpp:41-53 | equal checksums if and only if totals agree modulo 255 and both or neither are zero |
| Checksum.OneByteChangeIff | src/lin.cpp:41-60 | exactly which change of one byte goes unnoticed: 0x00 and 0xFF exchanged, beside something non-zero |
| Checksum.SingleBitErrorRejected | src/lin.cpp:57-60 | every single-bit error in data or checksum is refused |
| Checksum.EnhancedSeparatesIds | src/lin.cpp:23-60 | the same data under two identifiers has two enhanced checksums |
| Relay.BridgeRoundTrip | src/lin.cpp:113-150 | from_message after to_message is the identity on frames with 6-bit identifiers and an error on all others |
| Relay.MessageFields | src/lin.cpp:113-121 | every field of the message of a frame |
| Relay.AcceptedIff | src/lin.cpp:123-150 | which messages are refused, and what is made of a missing type, a missing checksum and an unreadable one |
| Text.ParseDecimal | src/lin.cpp:126 | decimals are read back by stoull and stoll after any blanks and a sign and before anything that is no digit, wrapping around or failing out of range |
| Text.ParseHex | src/ldf/parser.cpp:117-128 | hexadecimals in capital or small letters are read back in base 16 |
| Text.WordsSeparated | src/ldf/parser.cpp:284-287 | the stream operator delivers what blanks of any kind separate |
| Adapter.SendOutcome | src/lin.cpp:174-190 | which error the adapter reports for which message |
| Adapter.BridgeIdentityIff | src/lin.cpp:174-190 | sent on an open bus, a frame comes back unchanged from the next header if and only if it has a 6-bit identifier, data, the right checksum and, on diagnostic identifiers, the classic type |
| Adapter.ValidFramesSurvive | src/lin.cpp:57-73 | in particular every frame that passes validate_frame and verify_checksum |
| Adapter.ValidFrameIff | src/lin.cpp:64-73 | which frames pass validate_frame, with its numbers |
| AdapterOnBus.BridgedInRun | src/lin.cpp:174-190 | in every run of the bus a frame sent over the bridge is what a later header for its identifier exchanges, if nobody else publishes for it in between, exactly when it survives the bridge |
| Adapter.StartOutcome | src/lin.cpp:201-211 | what a new subscription is: an empty channel of the requested depth or 64, and numbers from one |
| Adapter.RunInv | src/lin.cpp:193-239 | for whatever the bus sends on the inner channel, in every reachable state of forwarding thread and subscribers: the offered messages are the bridged received frames in order |
| Adapter.GapsAreDrops | src/lin.cpp:209-233 | each message out of the outer channel is that of the frame at its number, and the numbers skipped are exactly the outer drops |
| Adapter.NumbersIncrease | src/lin.cpp:222 | sequence numbers strictly increase |
| Adapter.NothingUnaccounted | src/lin.cpp:215-233 | taken frames are received, buffered, evicted, refused or in hand |
| Adapter.BlockForwardsAll | src/lin.cpp:230-232 | under Block the messages are 1, 2, 3, … with nothing missing |
| Adapter.ClosesLast | src/lin.cpp:215-235 | the outer channel closes only after the inner one was closed and drained and every frame was offered |
| AdapterOnBus.RunJoint | src/lin.cpp:193-239 | with the inner channel being the adapter's port of the bus, both machines keep their invariants in every joint run |
| AdapterOnBus.WholeWay | src/lin.cpp:198-233 | with one master, between headers: the port was offered the whole bus log since the subscription, the adapter took what the port had room for, and under Block all of that reaches the message channel; so the whole log gets through if and only if no try found the port full |
| AdapterOnBus.BlockCanMissFrames | src/lin.cpp:198 | there is a run under Block in which a frame is refused at the port |
| AdapterObject.LinAdapter.Send | src/lin.cpp:174-190 | the adapter's effect on the bus, for every message and every error |
| AdapterObject.SendThenCollect | src/lin.cpp:174-190 | the same if-and-only-if, carried out on the bus object with its subscribers, whatever they do |
| AdapterObject.ForwardingThread.Receive | src/lin.cpp:215-222 | one pass of recv, and the numbered message made of what it returned |
| AdapterObject.ForwardingThread.Offer | src/lin.cpp:224-234 | one pass of the send that the policy picks |
| Decode.ExtractField | src/ldf/parser.cpp:62-71 | for every field whose bit indices stay within an int, be it because the payload ends first: the loop computes (little-endian payload / 2^offset) mod 2^width, also past the end of the payload, within 64 bits |
| Decode.PayloadBits | src/ldf/parser.cpp:65-69 | the loop's byte and bit index address the bits of the payload read as one integer |
| Decode.ValueSpelled | src/ldf/parser.cpp:62-71 | bit i of the value is bit (offset+i) mod 8 of byte (offset+i)/8, or zero past the payload, and nothing is above the width |
| Decode.SameValueIff | src/ldf/parser.cpp:64-70 | two payloads give a field one value if and only if they agree on its bits |
| LdfParser.Database.Decode | src/ldf/parser.cpp:52-74 | an unknown frame gives nothing; otherwise exactly the declared signals named by the frame, each with its field's value, the last offset counting for a repeated name |
| Ldf.ParseKeeps | src/ldf/parser.cpp:174-316 | for every text: signals stored under their own names with widths 0..64, frames under their own identifiers, schedule entries only for stored frames with 6-bit identifiers |
| LdfParser.Parser.ParseNodes | src/ldf/parser.cpp:151-172 | the loop ends with the line index in range and agrees with the section's meaning |
| LdfParser.Parser.ParseSignals | src/ldf/parser.cpp:174-218 | the same for signals |
| LdfParser.Parser.ParseSignal | src/ldf/parser.cpp:181-215 | a signal line: name, clamped width, initial value, publisher, subscribers |
| LdfParser.Parser.ParseFrames | src/ldf/parser.cpp:220-266 | the same for the nested frame loop |
| LdfParser.Parser.ParseScheduleTables | src/ldf/parser.cpp:268-316 | the same for the nested table loop, resolving names against the frames known by then |
| LdfParser.Parser.ParseTop | src/ldf/parser.cpp:318-346 | the outer loop ends at the last line for every list of lines |
| LdfParser.ParseText | src/ldf/parser.cpp:352-368 | parsing any text terminates in a database that keeps the invariants and is the one the sections mean |
| LdfLaws.ParseIntDecimal | src/ldf/parser.cpp:117-122 | signed decimals within and outside the range of a 64-bit integer |
| LdfLaws.ParseUintByStod | src/ldf/parser.cpp:124-131 | what std::stod reads is cut down towards zero, what it does not read is tried as an integer |
| LdfLaws.SignalLineRead | src/ldf/parser.cpp:181-215 | a signal line with any words for its numbers: unreadable ones are zero, widths are cut down to 0 and 64 |
| LdfLaws.FrameHeaderRead | src/ldf/parser.cpp:228-246 | the same for a frame header, with the identifier modulo 256 |
| LdfLaws.IdOfNameIff | src/ldf/parser.cpp:298-301 | the lowest identifier of a frame with the name, or 255 |
| LdfLaws.ScheduleLineRead | src/ldf/parser.cpp:281-307 | a schedule entry with any words: none if the name leads to an identifier above 63, the delay modulo 2^32 |
| LdfLaws.ScheduleLineByWords | src/ldf/parser.cpp:281-307 | a schedule line by its words: the first keyword after the name that a word follows counts, wherever it stands, and without one there is no entry |
| LdfLaws.FirstSeparators | src/ldf/parser.cpp:181-259 | the first colon, the first comma and the last brace are those that count |
| LdfLaws.LinePassedOver | src/ldf/parser.cpp:151-316 | in each section a line that declares nothing changes nothing |
| LdfLaws.KnownStays | src/ldf/parser.cpp:318-346 | whatever comes later, no declared signal, frame, table or slave is lost, so sections may be repeated |
| LdfPrint.ParseIntSpelled | src/ldf/parser.cpp:117-122 | numbers in decimal, or in hexadecimal with either prefix and in either case, are read back |
| LdfPrint.ParseUintSpelled | src/ldf/parser.cpp:124-131 | the same for unsigned numbers, in hexadecimal up to 2^64-1 |
| LdfPrint.SignalLinePrinted | src/ldf/parser.cpp:181-215 | a printed signal line is read back to that signal, in all fields, however its numbers are spelled |
| LdfPrint.FrameHeaderPrinted | src/ldf/parser.cpp:225-246 | a printed frame header is read back |
| LdfPrint.RefLinePrinted | src/ldf/parser.cpp:252-259 | a printed signal reference is read back |
| LdfPrint.ScheduleLinePrinted | src/ldf/parser.cpp:281-307 | a printed schedule entry is read back, its frame found by name |
| LdfReadBack.LinesReadBack | src/ldf/parser.cpp:318-346 | parsing the printed lines of any well-formed description gives that description's meaning, for every choice of spelling the numbers and the keyword and of placing the braces |
| LdfReadBack.ReadBack | src/ldf/parser.cpp:352-368 | the same for every text that spells it, whatever its indentation, comments and empty lines |
| Base64.Base64Encode | cli/json.hpp:35-50 | the loop encodes group by group; the length is 4·ceil(n/3) |
| Base64.Base64Decode | cli/json.hpp:52-69 | the output is the whole octets of the bit string that the letters before the first `=` stand for, although the 32-bit accumulator wraps and is never masked |
| Base64.EncodedBits | cli/json.hpp:38-48 | the letters stand for the data's bits, filled up to a whole sextet |
| Base64.LetterInAlphabet | cli/json.hpp:36-37 | the letters are those of the alphabet in their order |
| Base64.EncodedLetters | cli/json.hpp:44-47 | padding stands exactly at the end, one sign for every byte that the last group is short of three |
| Base64.JunkIgnored | cli/json.hpp:57-60 | characters outside the alphabet other than `=` do not change what a text stands for |
| Base64.StopsAtPadding | cli/json.hpp:58 | the first `=` ends the text |
| Base64.DecodedIsData | cli/json.hpp:35-69 | whatever the decoder returns for an encoding, with any such characters put in, is the data |
| Base64.RoundTrip | cli/json.hpp:35-69 | decoding the encoding of any bytes returns them |
| Master.Node.SetSchedule | src/master/node.cpp:23-34 | accepts a table if and only if all identifiers have 6 bits, and else changes nothing |
| Master.ParsedSchedulesAccepted | src/ldf/parser.cpp:299-303 | every table of every parsed text is accepted, and its entries name stored frames |
| Master.Node.Run | src/master/node.cpp:53-82 | for every bus and clock, and every stop flag that is set for good at some time: the run ends, its trace is the one that the loop prescribes step by step, and the callbacks match the trace; an empty schedule does nothing |
| Master.SlotsInTurn | src/master/node.cpp:60-64 | for every stop flag, also one that is cleared again: the i-th header serves slot i mod n, whatever errors occurred |
| Master.TraceSteps | src/master/node.cpp:60-80 | where each action of a trace comes from: round checks, slot checks, headers, and the waits after headers whose slot has a delay |
| Master.OneReportEach | src/master/node.cpp:65-69 | every header leads to exactly one callback, on_error or on_frame, in order |
| Master.ReportsByHandler | src/master/node.cpp:65-69 | a handler that is not set is not called, and the other as if both were |
| Master.OneHeaderAfterStop | src/master/node.cpp:60-64 | once stop is set for good only the header whose check came just before can still go out |
| Master.SeenSetEndsIff | src/master/node.cpp:60-78 | a load that sees stop set ends the run if and only if it is a round or slot check |
| Master.EndsOnlySet | src/master/node.cpp:60-62 | a run ends only at such a check |
| Master.SetAndClearedMissed | src/master/node.cpp:74 | the other case happens: a run that sees stop set during a delay and still sends a header |
| Slave.Node.SetResponse | src/slave/node.cpp:20-39 | effect on bus, index and result for every identifier and data |
| Slave.IndexOrder | src/slave/node.cpp:33-36 | new identifiers go to the end of the index |
| Slave.IndexWithout | src/slave/node.cpp:31-33 | one that is taken out leaves the others in order |
| Slave.AlwaysAgrees | src/slave/node.cpp:20-52 | in every reachable state of a bus with one slave the index has no duplicates and lists exactly the table's identifiers; entries have data, 6-bit identifiers and the classic type on 0x3C and 0x3D |

## Left out

- LdfReadBack.ReadBack: takes printable names, and decimals below 2^53 where values pass through `std::stod`, of which only that it reads those is assumed; the speed line is covered for whole decimal numbers.
- BusProgress.StuckIff: is about steps that can be taken; that `close` finishes behind a blocked Block send is not claimed, because the code does not ensure it.
- E2E.Receiver.Unwrap: the exception's message text is not modelled, only its kind and counter.
- LdfParser.Database.Decode: requires that no negative offset is used and no bit index exceeds an int, which the parser does not enforce; elsewhere the source's index arithmetic is undefined.
- BusObject.VirtualBus.SendHeader: while it waits, the other steps are those of the subscriber it waits for; all interleavings are covered by the laws about runs.
- AdapterObject.SendThenCollect: runs the exchange without other masters in between; `AdapterOnBus.BridgedInRun` covers interleavings.
- Slave.AlwaysAgrees: for a slave that is the bus's only publisher and calls it one after the other; concurrent calls can disagree, since publish runs outside the node's mutex (src/slave/node.cpp:27-30).
- Master.Node.Run: a flag that is never set for good may keep the source looping for ever; such runs are covered up to any of their steps by the lemmas about traces.
- Channels are values inside the bus and the adapter, so that a subscriber's handle and the bus's are one port rather than two references; only the bus and the adapter's thread send on or close their channels.
- A channel's capacity is at least 1, which `effective_depth` gives every subscription; a channel of capacity 0 is not part of the model.
- Closing the bus is one step over all its channels.
- `health`, `close_with_drain`, `all_drained` and the bus's own copy of a schedule.
- Real time: sleeping, deadlines and timestamps.
- A relay message's version and timestamp, which the bridge does not read.
- Error categories, message strings and protocol names.
- A signal's scale, offset, unit and limits, which the parser never sets; conversion of a `double` that is outside the range of `uint64_t` after truncation, which is undefined in C++ and wraps here; infinities and NaN, which `std::stod` can return and a real number cannot be.
- The command line and its JSON key search.
