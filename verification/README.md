# MercuryFIX: the path of a message, verified

A Dafny model of the way a FIX message takes through MercuryFIX, from `push()` to `pop()` and on to its
fields, together with the small algorithms around it. Every main result speaks about all inputs, all
interleavings or all reachable states.

| file | what it models |
|---|---|
| `Ring`, `RingSafety`, `RingTheorems`, `RingProgress`, `RingNonblocking` | the disruptor: many publishers and readers, one action per atomic operation |
| `Popper`, `PopperProgress` | `pop` and `session_pop` on top of the ring, with their cached limit |
| `Pusher`, `PusherProgress`, `PusherRings`, `PusherRingsProgress` | the pusher thread: three queues, batches, numbering, pausing; on logs, and on three rings |
| `Completion` | `push` and `session_push`, and building the complete message in the entry that holds the partial one |
| `Framing`, `Splitter` | the splitter as a machine over single bytes, and the class that works on chunks with its copy fast paths |
| `SequenceGate`, `HeaderScan` | what the splitter guarantees over whole streams, and when its header search is right |
| `RoundTrip`, `EndToEnd` | what the splitter makes of completed messages, down to their fields |
| `Resync` | messages and lengths the splitter refuses, and how it goes on |
| `AlteredNumber` | messages the splitter changes while it reads their number |
| `Fields`, `FieldErrors` | `FIXMessageTX` and `FIXMessageRX`, and when the walk reports an error |
| `Decimal`, `Primitives`, `Text` | decimal and big endian codecs, byte buffers |
| `RegionLock`, `RegionLockProgress` | the reader/writer lock over a 64 bit word |
| `Marshal` | `vmarshal_size`, `vmarshal`, `vunmarshal` |
| `Argopt` | the command line parser that permutes argv |
| `RuleEngine` | rule expressions with short-circuit skipping |

The concurrent parts are step systems: a state, actions with a guard and an effect, and runs as sequences
of states and actions. The code that works by updating buffers and fields is a class or a method with
loops, proved against a specification function; the theorems are about those functions.

How to read the model:

- A byte is a `char`. No proof needs a byte to be below 256, so everything holds for bytes in particular.
- Memory is sequentially consistent. Sequence numbers of the ring stay below the vacant mark.
- Clocks, the database, the message type table and the tag tables are parameters: an expire time, nothing,
  a predicate `isSession` on message types, a set of data tags.
- Where the source leaves its own memory the model has an explicit result for it, and says exactly when it
  is reached: `Halted` for the splitter (more zero bytes after the begin string than its array has, a
  declared length whose total does not fit the 32 bit size field, a message too short for a checksum
  field, a number or a type that runs on to the end of the message), `Overflow` for `append_field`,
  `Overrun` for `next_field`, `Leaves` for `vunmarshal`. What happens after it is not modelled. The
  theorems about all streams include the streams that lead there.
- The splitter's count of bytes to copy has 32 bits, in the model as in the source: declared lengths from
  2^32-8 on wrap to a few bytes.
- `atoll` and `strtoull` leave `errno` at ERANGE; the splitter never clears it, and neither does the model.

Where code and documentation differ, or the code does not do what it is for, the model follows the code:

- `get_sequence_number` puts soh where it found the end of the digits, whatever was there. A message with
  "34=1x" passes checksum and gate and is delivered as changed bytes that fail that checksum
  (`AlteredNumber.OneX`). `SequenceGate.ReadingTheNumber` has the exact condition.
- `push` accepts session messages of any size, and the queue they arrive on holds 504 bytes. A longer one is
  dropped, its number stays expected, and nothing sent after it is delivered
  (`RoundTrip.LongSessionMessageIsLost`). `RoundTrip.DeliveredIffAllFit` has the exact condition.
- `stdlib/marshal/marshal.h:61-62` says white space in a format is ignored. `vmarshal` fails on trailing
  white space when the buffer is exactly full, and `vunmarshal` fails on any it meets
  (`Marshal.WhiteSpaceIsNotIgnored`); `Marshal.ThereAndBack` has the exact condition.
- The header search restarts at the byte that did not match. That is right if and only if the version
  contains no '8' (`HeaderScan.ScanIsRightIffNo8`).
- A number of 2^64 or more, or a length above 2^63-1, leaves `errno` behind, and from then on no message is
  ever delivered (`Resync.HugeLengthSetsErange`, `Resync.WrongNumberIsRefused`, `Resync.ErangeIsForGood`).
- In a rule with an operator too many, "or" followed by "and" makes the first criterion not matter
  (`RuleEngine.DoubledOperators`).
- The comment at `applib/fixmsg/fixmsg_tx.cpp:79-89` says the buffer is reallocated if a field would overflow
  it; the test looks at the field alone (`Fields.TwoLongTexts`). `Fields.SizeTestSuffices` says exactly when
  that is enough, and `Fields.FIXMessageTX.AppendField` when a field does not fit.

## Model

| member | source | states |
|---|---|---|
| `RingSafety.SharedSlotIsFar` | stdlib/disruptor/disruptor.h:155 | two different sequence numbers that the mask sends to one slot are at least a whole ring apart |
| `RingSafety.MaskIsRemainder` | stdlib/disruptor/disruptor.h:169 | masking with size-1 is the remainder by the size, for every power of two |
| `RingSafety.StepKeepsInv` | stdlib/disruptor/disruptor.h:180-378 | every enabled action keeps the ring invariant: claims in order and owned once, cursors behind what readers need, scans that never overestimate the slowest reader |
| `RingSafety.InvIsSafe` | stdlib/disruptor/disruptor.h:284-341 | the invariant implies that writers are apart from each other and from every entry a reader may touch, that those entries are intact, and that readers saw a prefix of the log |
| `RingSafety.RoomMeansGrant` | stdlib/disruptor/disruptor.h:302-306 | a scan that finds room, with its 64 bit wrap-around subtraction, proves that no reader needs the slot's old entry any more |
| `RingTheorems.RunKeepsInv` | stdlib/disruptor/disruptor.h:180-378 | the invariant holds in every state of every run |
| `RingTheorems.EveryRunIsSafe` | stdlib/disruptor/disruptor.h:284-341 | in every state of every run no granted claim shares a slot with another one or with an entry some reader may still touch, although the scan is not atomic |
| `RingTheorems.StepRefinesLog` | stdlib/disruptor/disruptor.h:229-273 | every action is one step of an append-only log with reader positions, or leaves it alone |
| `RingTheorems.ReadIsLogEntry` | stdlib/disruptor/disruptor.h:229-260 | a slot about to be read holds exactly the log entry with that number |
| `RingTheorems.RunRefinesLog` | stdlib/disruptor/disruptor.h:229-378 | whole runs refine the log: each commit appends, each reader consumes entries 1, 2, 3, ... with no loss, duplicate or half-written value |
| `RingTheorems.DraftSurvives` | stdlib/disruptor/disruptor.h:284-341 | between its grant and its commit nobody else changes a publisher's slot |
| `RingTheorems.CommitsLastWrite` | stdlib/disruptor/disruptor.h:347-378 | a commit adds to the log the last value its own publisher wrote |
| `RingProgress.ReadersCatchUp` | stdlib/disruptor/disruptor.h:229-273 | from every good state the readers alone can read and release everything committed |
| `RingProgress.ScannerGetsGrant` | stdlib/disruptor/disruptor.h:294-308 | with the readers caught up a blocking publisher gets its grant, even from a scan that began on old cursors |
| `RingProgress.LowestClaimCommits` | stdlib/disruptor/disruptor.h:352-357 | with the readers caught up the owner of the lowest claim commits it alone |
| `RingProgress.OnlyLaggingReadersBlock` | stdlib/disruptor/disruptor.h:294-308 | if readers have not caught up, some reader has an unread or an unreleased entry |
| `RingProgress.NoReachableStateIsStuck` | stdlib/disruptor/disruptor.h:294-357 | from every reachable state with an open claim there is a continuation that commits the lowest one: readers first, then its owner |
| `RingNonblocking.UninterruptedCall` | stdlib/disruptor/disruptor.h:315-341 | from every good state the non-blocking claim of a publisher nobody interrupts gets the next number if and only if every registered reader has released enough for it; otherwise it leaves no trace but the stored slowest cursor, which is the least of all |
| `RingNonblocking.FailedCall` | stdlib/disruptor/disruptor.h:315-341 | in every run a non-blocking claim that came back empty either saw a cursor that left no room, or somebody else took the number meanwhile |
| `RingNonblocking.FirstLap` | stdlib/disruptor/disruptor.h:204-209 | in every run, until a reader releases something, a number has room if and only if it is at most the ring's size |
| `Popper.DriverStaysOk` | applib/fixio/fix_popper.cpp:899-994 | over every run the counter and the cached limit of a popper agree with its reader in the ring |
| `Popper.PopsInRingOrder` | applib/fixio/fix_popper.cpp:899-930 | at any moment what was returned is the log up to the counter, in order and once each; an entry fetched without waiting is committed and intact |
| `Popper.OneLookPerBatch` | applib/fixio/fix_popper.cpp:899-994 | over every run, after a look at the ring a popper fetches everything committed by then before it looks again |
| `Popper.SessionBufferIsNotReused` | applib/fixio/fix_popper.cpp:973-994 | the buffer session_pop handed out keeps its entry, and no publisher may write it, until the next session_pop |
| `PopperProgress.DriversCatchUp` | applib/fixio/fix_popper.cpp:899-994 | from every good state the poppers, popping as they do, get to where they wait for the next entry |
| `PopperProgress.PoppersLetPublishersCommit` | applib/fixio/fix_popper.cpp:899-994 | from every reachable state with an open claim there is a continuation of pops after which the owner of the lowest claim commits it alone |
| `RegionLock.StepKeepsInv` | stdlib/locks/region_lock.h:94-148 | every load, compare-and-swap, store and subtraction keeps reader count and blocker count right |
| `RegionLock.EveryRunExcludes` | stdlib/locks/region_lock.h:94-148 | over every interleaving of fewer than 2^32 threads, exclusive access means nobody is inside and nobody else holds the lock, and the low half counts those inside |
| `RegionLockProgress.LoneEnter` | stdlib/locks/region_lock.h:124-141 | with no blocker about, a thread outside gets in by its own steps, whoever is inside, and the count goes up by one |
| `RegionLockProgress.EverybodyGetsIn` | stdlib/locks/region_lock.h:94-148 | from every reachable state, for every thread outside: once those inside leave and the blocker unblocks, the thread gets in by its own steps, shared or exclusively as it likes |
| `Decimal.ValueOfDigits` | applib/fixutils/fixmsg_utils.cpp:162-164 | decimal digits of a number are digits and have its value |
| `Decimal.DigitCountIsPrintedLength` | applib/fixio/fix_pusher.cpp:388-433 | get_digit_count is the printed length of every 64 bit number |
| `Decimal.GetFixTag` | applib/fixutils/fixmsg_utils.cpp:49-79 | the loop never leaves int and returns the tag and the value's position that the specification gives |
| `Decimal.TagOfPrinted` | applib/fixutils/fixmsg_utils.cpp:45-79 | a printed tag t reads back as t if and only if 1 <= t <= 2147483639, and as -1 otherwise |
| `Decimal.GetFixLengthValue` | applib/fixutils/fixmsg_utils.cpp:81-107 | the loop never leaves long long and returns what the specification gives |
| `Decimal.LengthOfDigits` | applib/fixutils/fixmsg_utils.cpp:81-107 | digits up to the delimiter read back as their value wherever they stand in the message |
| `FieldErrors.TagIsExact` | applib/fixutils/fixmsg_utils.cpp:49-79 | for every message and position: the tag returned is the one that stands there as printed, -1 exactly if the digits there can be no tag, and the end of the message is passed exactly if it comes within a possible tag |
| `FieldErrors.LengthIsExact` | applib/fixutils/fixmsg_utils.cpp:81-107 | for every message and position: the length is the value of the digits if the delimiter ends them and they do not overflow, and is usable exactly if its low 32 bits are an int that is not negative |
| `Decimal.SizeIsPrintedLength` | applib/fixutils/fixmsg_utils.cpp:117-156 | the size chosen by comparisons is the printed length below 10^10 |
| `Decimal.UintToStr` | applib/fixutils/fixmsg_utils.cpp:109-167 | exactly the digits and the terminator are written, and the position returned is the terminator's |
| `Decimal.PaddedFits` | applib/fixutils/fixmsg_utils.cpp:182-196 | after k divisions nothing is left over if and only if the value is below 10^k, and then the k digits carry it |
| `Decimal.UintToStrZeroPadded` | applib/fixutils/fixmsg_utils.cpp:169-201 | zero padded digits and terminator are written; success if and only if the value is below 10^(available-1) |
| `Primitives.GetSet` | stdlib/marshal/primitives.h:70-143 | loading what was stored big endian in n bytes gives the number back |
| `Primitives.FirstByteIsHighest` | stdlib/marshal/primitives.h:70-143 | the first byte loaded counts 256^(n-1): the order is big endian |
| `Primitives.SetGet` | stdlib/marshal/primitives.h:70-143 | storing what was loaded from n bytes gives the bytes back |
| `Text.SumFromFront` | applib/fixmsg/fix_fields.h:53-64 | the sum of no bytes is zero, and of a byte and a rest it is the byte's value and the rest's sum |
| `Completion.HeartbeatChecksum` | applib/fixmsg/fix_fields.h:53-64 | the checksum of the shortest FIX 4.2 heartbeat is 161 |
| `Completion.GetFixChecksum` | applib/fixmsg/fix_fields.h:53-64 | the sum of the bytes modulo 256 |
| `Completion.CompleteIsConsistent` | applib/fixio/fix_pusher.cpp:563-584 | the BodyLength and CheckSum written ahead are what a receiver computes from the finished bytes |
| `Completion.SessionPush` | applib/fixio/fix_pusher.cpp:1132-1172 | an accepted charlie entry holds length, type, expire time and partial message side by side; a refused one is untouched |
| `Completion.Push` | applib/fixio/fix_pusher.cpp:1000-1069 | the message lies in the alfa entry if that admits it, else in the bravo entry made large enough; EINVAL exactly for types that do not fit; the other entry is untouched |
| `Completion.AdmittedLengths` | applib/fixio/fix_pusher.cpp:1024-1025 | an alfa entry admits up to 3828 bytes, a charlie entry up to 244 |
| `Completion.PrefixFits` | applib/fixio/fix_pusher.cpp:563-574 | the prefix is at most 94 bytes, so it stays behind the stored type and expire time |
| `Completion.CompleteFixMessage` | applib/fixio/fix_pusher.cpp:533-590 | the header ends where the payload starts, nothing before the message or behind the reserved tail changes, and the bytes are the complete message |
| `Completion.BuildHeader` | applib/fixio/fix_pusher.cpp:563-580 | the header text and its length, computed from the entry before it is printed |
| `Completion.FinishMessage` | applib/fixio/fix_pusher.cpp:576-587 | header, delimiter and checksum in place give the finished message and touch nothing else |
| `Framing.GetSequenceNumber` | applib/fixio/fix_popper.cpp:287-319 | the number of the first field 34, or 0 if there is none or it does not fit; whether it overflows; and the buffer with soh in place of the byte behind the digits |
| `Framing.StepsConcat` | applib/fixio/fix_popper.cpp:509-704 | stepping through two streams one after the other is stepping through their concatenation |
| `Framing.CopyLast` | applib/fixio/fix_popper.cpp:574-583 | the bytes that complete a body end the message, however many they are |
| `Splitter.Splitter.constructor` | applib/fixio/fix_popper.cpp:509-514 | a new splitter is the byte machine's start |
| `Splitter.Splitter.Feed` | applib/fixio/fix_popper.cpp:513-687 | a chunk, with its copies, its jump over the copied bytes and the byte it overwrites, has the effect of its bytes one at a time |
| `Splitter.Splitter.FeedAll` | applib/fixio/fix_popper.cpp:509-704 | state and events depend only on the concatenation of the chunks |
| `Splitter.Splitter.BodyTurn` | applib/fixio/fix_popper.cpp:574-683 | both copy branches equal the byte machine on the bytes they take |
| `Splitter.Splitter.NothingToCopy` | applib/fixio/fix_popper.cpp:557-674 | a length that wraps to nothing to copy ends the message at once, and the same soh is looked at again |
| `Splitter.Splitter.Decide` | applib/fixio/fix_popper.cpp:579-589 | checksum and number tests lead to the outcome of the specification, and the number is read in place |
| `Splitter.Splitter.Deliver` | applib/fixio/fix_popper.cpp:591-671 | type and size tests on the buffer as reading the number left it lead to the event and the expected number of the specification |
| `Splitter.Receive` | applib/fixio/fix_popper.cpp:392-710 | for every byte stream, noise included, and every way to cut it, the events are those of the byte machine |
| `SequenceGate.JudgeTakesNextOrNone` | applib/fixio/fix_popper.cpp:583-671 | a finished message takes exactly the next number, or leaves the expected number alone, and what is delivered is the message with one byte overwritten |
| `SequenceGate.StreamKeepsGate` | applib/fixio/fix_popper.cpp:509-704 | after every stream the numbers taken have no gap, what is being copied is the end of the stream, and every delivery has its origin in the stream |
| `SequenceGate.ReceivedAsIs` | applib/fixio/fix_popper.cpp:515-583 | in a stream without zero bytes the origin of a delivered message stands in one piece |
| `SequenceGate.OverwrittenChecksum` | applib/fixio/fix_popper.cpp:579-581 | overwriting a byte before the checksum field keeps the checksum right if and only if it is the same byte modulo 256 |
| `SequenceGate.ReadingTheNumber` | applib/fixio/fix_popper.cpp:304-318 | reading the number leaves the bytes as they were if and only if the number ends with soh, and the checksum right if and only if that byte counts like soh or lies in the checksum field; the number reads the same afterwards |
| `SequenceGate.GateOverWholeStreams` | applib/fixio/fix_popper.cpp:509-704 | whatever arrives, accepted messages carry s+1, s+2, ... without gap, numbers on delta and echo together strictly increase, and each delivered message arrived in the stream with a right checksum, carries its number, and is unchanged, or still has a right checksum, exactly under those conditions |
| `AlteredNumber.DeliveredAltered` | applib/fixio/fix_popper.cpp:304-318 | for every type, number, byte behind it and rest: a message with a right checksum is delivered with that byte overwritten and fails the test it had passed |
| `AlteredNumber.OneX` | applib/fixio/fix_popper.cpp:280-319 | "34=1x" as the first message of a session is such a message |
| `Resync.BadChecksumIsDropped` | applib/fixio/fix_popper.cpp:579-581 | any whole message whose checksum differs from the sum of its bytes leaves the splitter as it was, one event aside |
| `Resync.WrongNumberIsRefused` | applib/fixio/fix_popper.cpp:583-589 | any whole message with a right checksum and another number than the next draws a resend request from the number expected, and changes nothing else but errno |
| `Resync.EmptyTypeIsRejected` | applib/fixio/fix_popper.cpp:591-596 | a message with the next number and an empty type takes its number and is answered by a reject |
| `Resync.BadLengthIsSkipped` | applib/fixio/fix_popper.cpp:532-543 | a length with another character in it, or with more than twenty digits, leaves the splitter as it was |
| `Resync.ZeroLengthIsSkipped` | applib/fixio/fix_popper.cpp:548-552 | so does a length whose low 32 bits are zero |
| `Resync.TooLongHalts` | applib/fixio/fix_popper.cpp:557-562 | a length that overflows the 32 bit size together with what surrounds it is where the model stops |
| `Resync.WrappedLengthEndsAtOnce` | applib/fixio/fix_popper.cpp:557-581 | a length of 2^32-8 makes a message of the begin string and the digits alone, which is dropped unless its own digits are its checksum |
| `Resync.HugeLengthSetsErange` | applib/fixio/fix_popper.cpp:548-552 | a length above 2^63-1 is skipped and leaves errno at ERANGE |
| `Resync.ErangeIsForGood` | applib/fixio/fix_popper.cpp:548-552 | with errno left at ERANGE no later stream causes an event |
| `Resync.NextIsDelivered` | applib/fixio/fix_popper.cpp:672-674 | after any bytes that were refused without taking a number, the next good message is delivered as if they had not been there |
| `Resync.BadThenGood` | applib/fixio/fix_popper.cpp:579-674 | in particular after any message with a wrong checksum |
| `Resync.HeartbeatWithWrongSum` | applib/fixio/fix_popper.cpp:579-581 | a heartbeat with checksum 000 is such a message |
| `HeaderScan.RestartIsExact` | applib/fixio/fix_popper.cpp:516-530 | if the first byte of the begin string is unique in it, the restart rule keeps l the longest suffix that is a prefix |
| `HeaderScan.ScanTracksLongest` | applib/fixio/fix_popper.cpp:515-531 | so l is the longest match after every stream without a header |
| `HeaderScan.FirstHeaderIsFound` | applib/fixio/fix_popper.cpp:515-531 | then the first begin string followed by a digit always starts a message |
| `HeaderScan.DecoyIsMissed` | applib/fixio/fix_popper.cpp:515-531 | if the version contains an '8', a false start hides a header from the scan |
| `HeaderScan.ScanIsRightIffNo8` | applib/fixio/fix_popper.cpp:515-531 | the scan finds the first header of every stream if and only if the version contains no '8' |
| `HeaderScan.BehindZeros` | applib/fixio/fix_popper.cpp:516-531 | zero bytes pass for more of the begin string up to 32 bytes in all; a digit before that starts the length, and the byte after 32 is where the model stops |
| `RoundTrip.AcceptedIsSendable` | applib/fixio/fix_pusher.cpp:1000-1172 | whatever push accepts can be completed and framed; what session_push admits fits its queue, and a session type with more than 504 bytes does not |
| `RoundTrip.ConsistentIsFramed` | applib/fixio/fix_popper.cpp:515-583 | a consistent message is framed exactly and passes the checksum test |
| `RoundTrip.NumberAndType` | applib/fixio/fix_popper.cpp:583-597 | number and type of a completed message are found where the splitter looks, not in an earlier field, and reading the number changes nothing |
| `RoundTrip.OneMessageRoundTrip` | applib/fixio/fix_popper.cpp:515-704 | a completed message is delivered, on its queue with all its bytes, its number and its type's offset, if and only if it has the next number and fits; otherwise it draws a resend request, or is dropped as oversized, and nothing is accepted |
| `RoundTrip.PushPopRoundTrip` | applib/fixio/fix_pusher.cpp:533-590 | every list of messages push accepts, completed with consecutive numbers and concatenated, causes exactly one event each, and the splitter then waits behind the last one that fitted |
| `RoundTrip.EventAt` | applib/fixio/fix_popper.cpp:579-671 | messages before the first that does not fit are delivered in order as sent, that one is dropped, and every later one only draws a resend request |
| `RoundTrip.DeliveredIffAllFit` | applib/fixio/fix_popper.cpp:657-662 | a message is delivered if and only if it and all before it fit |
| `RoundTrip.LongSessionMessageIsLost` | applib/fixio/fix_popper.cpp:657-662 | a session message of 600 bytes, which push accepts on alfa, and whatever follows it are lost |
| `Fields.SizeTestSuffices` | applib/fixmsg/fixmsg_tx.cpp:92 | the size test alone keeps every field inside the buffer if and only if at most 20 bytes less the tag's digits are in use |
| `Fields.GrownIsTight` | applib/fixmsg/fixmsg_tx.cpp:91-111 | the buffer grows to a multiple of its size that is not twice as large as it has to be |
| `Fields.TwoLongTexts` | applib/fixmsg/fixmsg_tx.cpp:91-101 | two texts of 1100 bytes into a new message: the second passes the size test and does not fit |
| `Fields.FIXMessageTX.constructor` | applib/fixmsg/fixmsg.h:89-108 | an initial message has no fields, no type, no time to live and one delimiter |
| `Fields.FIXMessageTX.AppendField` | applib/fixmsg/fixmsg_tx.cpp:68-128 | the field joins the list, or sets the type; it is refused exactly if it is a type that is too long; it overflows exactly if it does not fit behind what is there, or realloc moves the buffer |
| `Fields.FIXMessageTX.Expose` | applib/fixmsg/fixmsg_tx.cpp:130-160 | hands out its own buffer with delimiter, fields and checksum tag, and the time to live, if and only if type and sending time were set, and leaves a blank message |
| `Fields.FIXMessageRX.Imprint` | applib/fixmsg/fixmsg.h:248-256 | the walk starts three bytes before the type's value |
| `Fields.FIXMessageRX.NextFieldOf` | applib/fixmsg/fixmsg_rx.cpp:150-185 | the field, 0, -1 or an overrun as the specification gives, data fields by the length before them, and the state the walk is left in |
| `Fields.IthFieldIsRead` | applib/fixmsg/fixmsg_rx.cpp:150-185 | at the i-th field the walk returns its tag and value, delimiters inside data included, and moves to the next |
| `Fields.WalkReadsBack` | applib/fixmsg/fixmsg_rx.cpp:150-185 | walking printed fields gives back all tags and values in order, then 0 |
| `FieldErrors.NextIsExact` | applib/fixmsg/fixmsg_rx.cpp:150-185 | for every message and position next_field reports the end exactly at the checksum's tag, and -1 exactly if no tag can stand there or a data field's length is no good |
| `Pusher.StepKeepsInv` | applib/fixio/fix_pusher.cpp:592-731 | every step keeps numbers consecutive and each queue's output a prefix of what was pushed |
| `Pusher.EveryRunNumbersInOrder` | applib/fixio/fix_pusher.cpp:822-864 | over any interleaving and any number of pauses the sink carries n0+1, n0+2, ... and each queue's messages in push order |
| `PusherProgress.RoundSendsAll` | applib/fixio/fix_pusher.cpp:822-864 | one round of the thread, nobody pausing it, visits alfa, bravo and charlie and leaves each with its last entry sent |
| `PusherProgress.EveryRunCanSendAll` | applib/fixio/fix_pusher.cpp:822-864 | from every reachable state the thread alone gets to where each queue has been sent to its end, in push order |
| `PusherRings.StepRefines` | applib/fixio/fix_pusher.cpp:592-731 | every operation of the thread or of a publisher on the three rings is a step of the pusher on logs, or changes nothing there |
| `PusherRings.RunRefines` | applib/fixio/fix_pusher.cpp:822-864 | every run on the rings is a run on logs, and the thread's readers agree with its variables |
| `PusherRings.RingsAreNumberedInOrder` | applib/fixio/fix_pusher.cpp:822-864 | over every interleaving of the thread with publishers on three rings the sink carries n0+1, n0+2, ... and of each queue what was committed to its ring, in ring order |
| `PusherRings.ThreadCanGoOn` | applib/fixio/fix_pusher.cpp:592-731 | in every reachable state the ring allows the operation the thread's variables call for |
| `PusherRingsProgress.CommittedIsSent` | applib/fixio/fix_pusher.cpp:822-864 | from every reachable state of the three rings the thread alone sends whatever was committed to any of them |
| `PusherRingsProgress.PublishersGetRoom` | applib/fixio/fix_pusher.cpp:592-731 | and it has then released enough that the owner of the lowest open claim of a ring commits it alone |
| `EndToEnd.BodyIsFields` | applib/fixio/fix_pusher.cpp:563-572 | what BodyLength counts is exactly the fields 35, 34 and the appended ones |
| `EndToEnd.FieldRoundTrip` | applib/fixmsg/fixmsg_tx.cpp:68-160 | fields appended, exposed, completed with any number and walked come back as 35, 34 and the same list, then 0 |
| `EndToEnd.ReceiveRun` | applib/fixio/fix_popper.cpp:392-710 | what any run of the pusher on its rings wrote, cut into any chunks, leads to one event for each of the sink's messages in order, each queue in ring order |
| `EndToEnd.SentFieldsArrive` | applib/fixmsg/fixmsg_rx.cpp:150-185 | fields of a pushed message, if it and all before it fit, are read back from the event, behind its type and the number the pusher gave it |
| `Marshal.VMarshalSize` | stdlib/marshal/marshal.cpp:63-127 | the sum of the slots modulo 2^32 |
| `Marshal.VMarshal` | stdlib/marshal/marshal.cpp:146-284 | success exactly if there is room to spare, or none and the format ends with an argument; then all items lie in their slots, and nothing behind the buffer changes |
| `Marshal.DecodeEncode` | stdlib/marshal/marshal.cpp:222-249 | integers of every width and sign survive the two's complement casts |
| `Marshal.IntegerSpecifiers` | stdlib/marshal/marshal.cpp:94-109 | the four integer specifiers have 8, 16, 32 and 64 bits, signed or not, in slots of that many bytes |
| `Marshal.VUnmarshal` | stdlib/marshal/marshal.cpp:303-421 | over any memory and with any format: the count and the values, -1, or that it leaves the memory, as the specification gives |
| `Marshal.ItemsAreRead` | stdlib/marshal/marshal.cpp:303-421 | memory that holds the items of a format is read as their values in order; -1 exactly if another character is met or the bytes end inside an item |
| `Marshal.WhiteSpaceIsNotIgnored` | stdlib/marshal/marshal.cpp:409-411 | two formats with white space, one of which is not unmarshalled and one not marshalled |
| `Marshal.ThereAndBack` | stdlib/marshal/marshal.cpp:63-421 | sized, marshalled and unmarshalled, the count and all values come back if and only if there is an argument and no character between the specifiers |
| `Argopt.MatchMeasure` | stdlib/cmdline/argopt.cpp:76-92 | the length of the common prefix |
| `Argopt.FindOption` | stdlib/cmdline/argopt.cpp:99-139 | the first exact match, else the only completion, else ambiguous or unknown |
| `Argopt.ResolvesUniquely` | stdlib/cmdline/argopt.cpp:99-139 | that description leaves only one answer |
| `Argopt.ParamIsText` | stdlib/cmdline/argopt.cpp:148-158 | which texts an argument can pass as a parameter, and how: all but those that begin with a backslash and a dash; an argument is no parameter exactly if it is an option or a lone dash |
| `Argopt.CodeTells` | stdlib/cmdline/argopt.h:55-60 | if the table's values are not negative, the code returned tells which of the cases applied |
| `Argopt.PushToEnd` | stdlib/cmdline/argopt.cpp:57-69 | the argument moves to the end, all others keep their order |
| `Argopt.RotatedIsPushed` | stdlib/cmdline/argopt.cpp:202-215 | rotating the next argument away appends it to the pushed ones |
| `Argopt.TwoRotatedArePushed` | stdlib/cmdline/argopt.cpp:221-238 | two rotations at the same place push two arguments in order |
| `Argopt.Parser.Call` | stdlib/cmdline/argopt.cpp:170-280 | a call moves one or two arguments to the kept or the pushed ones and reports code, parameter and index; with nothing left it reports the boundary |
| `Argopt.Parser.PushUnknown` | stdlib/cmdline/argopt.cpp:218-241 | an unknown option and what looks like its parameter are pushed in order |
| `Argopt.Parser.TakeOption` | stdlib/cmdline/argopt.cpp:244-275 | a known option is kept with its parameter, or reports the missing one |
| `Argopt.ChosenIsAll` | stdlib/cmdline/argopt.cpp:170-280 | kept and pushed arguments together are all arguments |
| `Argopt.ParsesUniquely` | stdlib/cmdline/argopt.cpp:170-280 | which arguments are kept is determined by the arguments and the table |
| `Argopt.ParseAll` | stdlib/cmdline/argopt.cpp:160-280 | calls on a new parser come to an end within argc calls; argv is then a stable partition of what it was, and index is the boundary |
| `RuleEngine.SkipForwardTo` | stdlib/rule_engine/rule_engine.cpp:260-292 | the next such operator, or the end |
| `RuleEngine.IdOfPrinted` | stdlib/rule_engine/rule_engine.cpp:156 | an id is the number it is in base 16, in either case and with leading zeros, modulo 2^32, and saturates at 2^64 |
| `RuleEngine.SkippingIsSound` | stdlib/rule_engine/rule_engine.cpp:311-331 | operators that cannot change the value may be skipped |
| `RuleEngine.SkippingIsPlain` | stdlib/rule_engine/rule_engine.cpp:294-351 | on well formed expressions the evaluation with skips equals the evaluation of every criterion from left to right |
| `RuleEngine.DoubledOperators` | stdlib/rule_engine/rule_engine.cpp:294-351 | what two ids with two operators between them come to, in all four cases: a missing id counts as criterion 0 where the evaluation comes by, and a plus as a sign |
| `RuleEngine.EvaluateExpression` | stdlib/rule_engine/rule_engine.cpp:294-351 | ends on every expression without parentheses, with the value of the specification, and on well formed ones with that of the plain evaluation |
| `RuleEngine.PlainIsMeaning` | stdlib/rule_engine/rule_engine.cpp:294-351 | that evaluation of a printed expression tree is the tree's meaning |
| `RuleEngine.EvaluateIncident` | stdlib/rule_engine/rule_engine.cpp:353-376 | the first rule that holds after negation, or none, for all expressions without parentheses |
| `RuleEngine.HoldsIsMeaning` | stdlib/rule_engine/rule_engine.cpp:353-376 | a rule whose expression is a printed tree holds exactly if the tree's meaning differs from its negation |
| `RuleEngine.OneCriterion` | stdlib/rule_engine/rule_engine.cpp:353-376 | a rule that is one printed id holds exactly if that criterion differs from its negation |

## Left out

- Resending (`FIX_Pusher::resend`, `push_romeo`) and the branch of the splitter for a received ResendRequest, which its session test makes unreachable.
- `do_writev` and the flush at IOV_MAX: the sink is a list of whole messages.
- Registration after the first claim, unregistration, a ring without readers, and the batch `pop` that shares the queue with the plain one.
- Hardware memory ordering, cache line padding, sleeping and failing allocations.
- Clearing the delta entry in `pop`: a popped slot keeps its value in the model, and the splitter's reuse of the entry's buffer is modelled in `Splitter` instead.
- The message type table and the tag tables of the FIX versions; SQLite; IEEE 754 packing and the float formats of marshalling.
- Parentheses in rule expressions, and the comparison of a criterion with an event: whether a criterion holds is a parameter. An id that is no number counts as id 0, as with C libraries that leave `errno` alone.
- `argopt` without an option table, `argopt_help` and `argopt_completions`.
- `clone_from` and `next_power_of_two` of `FIXMessageTX`.
- Writing into a ring entry while reading it: the pusher completes a message in the entry itself, and the rings of the model hold messages as values; `Completion` has the entry's bytes.
- Sockets, the daemon, configuration, logging, IPC and the session classes, and the server's own loop over argopt, which advances the text of an ambiguous argument.
- Library calls between two messages that set `errno` to something else.
- Fields.FIXMessageTX.AppendField: after an Overflow nothing is said about the memory the source writes to; whether realloc moves the buffer is a parameter.
- Fields.FIXMessageRX.NextFieldOf: after an Overrun nothing is said about what the source reads there.
- Marshal.VMarshal: asks for arguments that match the format, as a variable argument list has to; the bits of floats are not marshalled.
- RegionLock.EveryRunExcludes: asks for fewer than 2^32 threads, which the header demands of its callers.
- RegionLockProgress.EverybodyGetsIn: asks for fewer than 2^32 threads too; it says that a continuation exists, not that every schedule takes it.
- RingNonblocking.UninterruptedCall: asks that a reader is registered and that the numbers stay below the vacant mark.
- PusherRingsProgress.PublishersGetRoom: asks for a ring with one reader, as the pusher's rings have.
- FieldErrors.NextIsExact: asks that the delimiter is no digit, as do FieldErrors.LengthIsExact and the lemmas of Resync.
- RoundTrip.AcceptedIsSendable: asks for a partial message of the documented form, 98 bytes short of 4 GiB, because push stores its length in 32 bits.
- Pusher.EveryRunNumbersInOrder: asks that the numbers stay below 2^64.
- EndToEnd.ReceiveRun: asks for a version of at most 26 bytes, which is what the 32 byte begin string holds without truncation, and for numbers below 2^64-1, which `get_sequence_number` takes for no number.
- Argopt.ParseAll: asks that no option's own value is the code for the end, which a caller could not tell apart.
- RuleEngine.EvaluateIncident: asks for expressions without parentheses.
