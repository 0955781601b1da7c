# Verified models of TOP-chain's locks, queues, codecs and JSON

The project models the parts of the repository whose correctness rests on interleavings, sizes and byte
layouts, and proves what callers rely on. Each component is a specification (datatypes and functions), lemmas
about it, and classes or loop methods in the source's own form that are proved to compute it.

- `SpinLock.dfy`, `RwLock.dfy` (with `Census.dfy`): the two reader/writer locks as step systems over every
  interleaving of any number of clients. One event is one atomic operation of the spin lock, or one critical
  section of the blocking lock; wait sets, the choice made by `notify_one` and spurious wake-ups are explicit.
- `SessionLimiter.dfy`, `SessionCache.dfy`: the fixed-window request limiter over whole runs, and which sessions its
  cache holds after every run.
- `BlockQueue.dfy`: the single-producer, single-consumer queue of linked blocks, interleaved at every access
  to shared memory.
- `Bytes.dfy`, `StreamCodec.dfy`, `CodecLayout.dfy`, `ByteStream.dfy`, `XData.dfy`: the stream operators, their
  byte layout, short and tiny strings, and the string containers that persist themselves through them.
- `PacketFlags.dfy`, `Pdu.dfy`, `PduLaws.dfy`, `PduStream.dfy`, `PduSample.dfy`: packet framing with optional
  compression, encryption and checksum, what a reader does with any stream, and concrete parameters that meet every
  law the framing asks for.
- `JsonText.dfy`, `JsonString.dfy`, `JsonLiteral.dfy`, `JsonParse.dfy`, `JsonReader.dfy`: the JSON parser, its string
  literals and UTF-16 escapes.
- `JsonSteps.dfy`, `JsonGrammar.dfy`, `JsonSpelled.dfy`, `JsonAccepted.dfy`, `JsonShortest.dfy`, `JsonConforms.dfy`,
  `JsonRoundTrip.dfy`: when a text spells a value by the grammar of RFC 8259, that the parser accepts those
  texts and, but for strings that are never closed, no others, and that the printer writes the shortest of them.
- `JsonMemory.dfy`, `JsonPrinter.dfy`, `JsonBuffer.dfy`, `BufferSize.dfy`: the two-pass and the growing-buffer printer.
- `JsonMinify.dfy`, `JsonTokens.dfy`, `JsonList.dfy`: the in-place minifier and the linked list of children.

Several results say when a property fails as well as when it holds. The limit per address holds exactly while
all addresses fit the session cache (`AddressWindowBound`, `OneAddressTooMany`); for a single
address it is enough that it always comes back in time (`RecurringWindowBound`). The minifier stops on the
terminator exactly for texts that leave no literal or comment open (`StopsIff`). The second pass over a string
literal stays in the text exactly when its stopping point does (`StaysIff`). A pop keeps the queue sound
exactly when its count is not negative (`PopSoundIff`). A short or tiny string survives exactly when its length
fits its length field (`SizedRoundTripIff`). An empty packet body is accepted exactly when it was not
compressed (`EmptyBodyIff`).

Modelling decisions:

- Memory accesses are sequentially consistent. Threads are `Client` numbers; fewer than 2^29 of them use one
  spin lock, so its 32-bit word cannot overflow.
- Clock readings, the iteration order of a map, the sleeper that a notification picks and refused allocations
  are parameters or free choices. `Heap.refused` remembers a refusal; sizes above 2^30, which a C `int`
  cannot double, count as refused.
- LZ4, AES-CTR, the hash and the header fields behind the fixed prefix are function values with inverse and
  length laws (`Pdu.Lawful`), the header's for what it has room for: its own fields, a 32-bit checksum and an
  8-bit rate. The fixed prefix is the eight bytes its fields add up to; the comment beside it
  says twelve.
- The block queue follows the evident intent where the template text does not type-check: the block being
  left is the front block (src/xtopcom/xbase/xmem.h:1000), and allocated memory is cast (lines 929 and 1065).
- A JSON number that is parsed is a decimal mantissa and exponent, so parsing is exact. A number that is printed
  is a 32-bit integer, or a `Double` known by the text the C library formats it to (fewer than 64 bytes).
- The JSON grammar is that of RFC 8259, widened where the parser is: any byte up to 32 is white space, a number may
  have leading zero, no digits behind its minus or its exponent letter, a backslash may stand before any letter, and an
  escape without four digits or a surrogate without its partner stands for nothing.
- `Overrun` marks exactly the literals on which one of the two passes would leave the text, or the second one the
  space the first one counted (`Defined`). The parsing methods ask for texts without them. No literal of the
  grammar of section 7 of RFC 8259 is one. `CutShort`, `FirstPassLeaves` and `SwallowedQuote` are inputs that are.
- The counters of the blocking lock start at 0; its constructor's body is not part of this model.

## Model

| member | source | states |
|---|---|---|
| SpinLock.InitialInv | src/xtopcom/xbase/xrwspinlock.h:42-45 | a fresh lock word of 0 with every client idle satisfies the invariant |
| SpinLock.StepInv | src/xtopcom/xbase/xrwspinlock.h:62-164 | every single atomic operation, mid-points of the two-step ones included, keeps the accounting law (word = 4 per client counted as a reader + 2 upgrade bit + 1 per writer) and the exclusion facts |
| SpinLock.WordShape | src/xtopcom/xbase/xrwspinlock.h:62-65 | what the bit tests and masks see in a word built from reader units, upgrade bit and writer bit |
| SpinLock.RunInv | src/xtopcom/xbase/xrwspinlock.h:50-164 | the invariant holds after every interleaving of any length of any number of clients below 2^29 |
| SpinLock.PairExclusive | src/xtopcom/xbase/xrwspinlock.h:125-164 | of two different clients, a writer leaves the other nothing, and two are never both upgraders |
| SpinLock.InvExclusive | src/xtopcom/xbase/xrwspinlock.h:125-164 | exclusion for all pairs follows from the accounting |
| SpinLock.ZeroIffAllIdle | src/xtopcom/xbase/xrwspinlock.h:62-122 | the word is 0 if and only if nobody holds the lock or is in the middle of an operation |
| SpinLock.UpgradeBitHasOwner | src/xtopcom/xbase/xrwspinlock.h:155-164 | an upgrade bit left behind by a failed attempt always has an upgrader or writer that will clear it |
| SpinLock.RunsAreExclusive | src/xtopcom/xbase/xrwspinlock.h:50-164 | from a free lock, every reachable state is exclusive, the word is 4 per reader unit + 2 for the upgrade bit + 1 per writer, an upgrade bit without an upgrader has a writer, and the word stays in 0..2^31-1 and is 0 exactly when all are idle |
| SpinLock.NoGapWhileHeld | src/xtopcom/xbase/xrwspinlock.h:82-122 | while one client keeps the lock through any chain of upgrade, promotion and downgrade, nobody else ever becomes a writer and the protected data changes only if that client stores |
| SpinLock.RunsHaveNoGap | src/xtopcom/xbase/xrwspinlock.h:82-153 | the same for every interleaving that starts from a free lock |
| SpinLock.WordParts | src/xtopcom/xbase/xrwspinlock.h:37-45 | the word and its two low bits in terms of the clients counted |
| SpinLock.LockGrantedIff | src/xtopcom/xbase/xrwspinlock.h:125-129 | in every state with the invariant the writer is let in if and only if every client is idle |
| SpinLock.SharedGrantedIff | src/xtopcom/xbase/xrwspinlock.h:137-146 | a reader is let in if and only if nobody is upgrader or writer, mid-points of the downgrades included |
| SpinLock.UpgradeGrantedIff | src/xtopcom/xbase/xrwspinlock.h:156-164 | an upgrader is let in under exactly the same condition |
| SpinLock.PromotionGrantedIff | src/xtopcom/xbase/xrwspinlock.h:149-153 | an upgrader becomes writer if and only if no reader is inside or backing out |
| SpinLock.RwSpinLock.constructor | src/xtopcom/xbase/xrwspinlock.h:45 | a fresh lock is the initial state |
| SpinLock.RwSpinLock.Try | src/xtopcom/xbase/xrwspinlock.h:125-129 | one compare-exchange from 0; granted exactly when the step makes the client a writer |
| SpinLock.RwSpinLock.Release | src/xtopcom/xbase/xrwspinlock.h:62-65 | clears both low bits and keeps the invariant |
| SpinLock.RwSpinLock.AddReader | src/xtopcom/xbase/xrwspinlock.h:137-141 | first half of try_lock_shared: adds the reader, granted exactly when neither low bit was set |
| SpinLock.RwSpinLock.BackOut | src/xtopcom/xbase/xrwspinlock.h:142 | second half after a refusal |
| SpinLock.RwSpinLock.ReleaseShared | src/xtopcom/xbase/xrwspinlock.h:77-79 | unlock_shared is the matching step |
| SpinLock.RwSpinLock.TryUpgrade | src/xtopcom/xbase/xrwspinlock.h:156-164 | one fetch_or; granted exactly when both bits were clear, and never undone |
| SpinLock.RwSpinLock.TryPromotion | src/xtopcom/xbase/xrwspinlock.h:149-153 | one compare-exchange from the upgrade bit alone |
| SpinLock.RwSpinLock.ReleaseUpgrade | src/xtopcom/xbase/xrwspinlock.h:97-99 | unlock_upgrade |
| SpinLock.RwSpinLock.UpgradeBecomesShared | src/xtopcom/xbase/xrwspinlock.h:112-114 | unlock_upgrade_and_lock_shared in one step |
| SpinLock.RwSpinLock.BeginShared | src/xtopcom/xbase/xrwspinlock.h:82-83 | first step of the writer-to-reader downgrade |
| SpinLock.RwSpinLock.FinishShared | src/xtopcom/xbase/xrwspinlock.h:84 | its second step |
| SpinLock.RwSpinLock.BeginUpgrade | src/xtopcom/xbase/xrwspinlock.h:117-120 | first step of the writer-to-upgrader downgrade |
| SpinLock.RwSpinLock.FinishUpgrade | src/xtopcom/xbase/xrwspinlock.h:121 | its second step |
| RwLock.InitialInv | src/xtopcom/xbase/xlock.h:187-192 | all counters 0 and everybody idle satisfies the invariant |
| RwLock.StepInv | src/xtopcom/xbase/xlock.h:150-185 | every critical section and every spurious wake-up keeps accounting, exclusion and both wake-up laws |
| RwLock.RunInv | src/xtopcom/xbase/xlock.h:150-185 | so does every run |
| RwLock.InvExclusive | src/xtopcom/xbase/xlock.h:150-164 | a writer inside shares with nobody |
| RwLock.RunsAreExclusive | src/xtopcom/xbase/xlock.h:150-192 | in every reachable state the three counters count exactly the readers inside, the writer inside (0 or 1) and the writers inside or waiting, and exclusion holds |
| RwLock.NoReaderEntersPastWriter | src/xtopcom/xbase/xlock.h:150-164 | over any stretch during which some writer stays pending, the set of readers inside can only shrink |
| RwLock.ReleaseProgress | src/xtopcom/xbase/xlock.h:165-185 | if somebody is inside, a release is possible and uses up work |
| RwLock.EntryProgress | src/xtopcom/xbase/xlock.h:150-164 | if nobody is inside and somebody waits, a woken client exists that gets in the moment it runs |
| RwLock.Drains | src/xtopcom/xbase/xlock.h:150-185 | from every state with the invariant some schedule of re-checks and releases alone serves everybody |
| RwLock.FinishingRanksDown | src/xtopcom/xbase/xlock.h:150-185 | every re-check and every release lowers one rank: clients not idle first, clients awake second |
| RwLock.StuckMeansIdle | src/xtopcom/xbase/xlock.h:150-185 | where no re-check or release is possible everybody is idle |
| RwLock.EveryScheduleServesAll | src/xtopcom/xbase/xlock.h:150-185 | from every reachable state every schedule of re-checks and releases is bounded by that rank and, when no move is left, has served everybody: no deadlock and no lost wake-up |
| RwLock.RunsNeverLoseAWakeUp | src/xtopcom/xbase/xlock.h:150-185 | every reachable state: sleeping readers imply a pending writer, a free lock with a sleeping writer has a woken one, and the state drains |
| RwLock.ReadEntersIff | src/xtopcom/xbase/xlock.h:150-156 | a reader gets in if and only if no writer is inside or waiting, and sleeps otherwise |
| RwLock.WriteEntersIff | src/xtopcom/xbase/xlock.h:157-164 | a writer gets in if and only if nobody is inside, and sleeps otherwise |
| RwLock.WriterLeaves | src/xtopcom/xbase/xlock.h:173-185 | a writer that leaves wakes every sleeping reader if no other writer is left, else the picked sleeping writer and nobody else |
| RwLock.ReaderLeaves | src/xtopcom/xbase/xlock.h:165-172 | the last reader that leaves wakes the picked sleeping writer, any other reader nobody |
| RwLock.RwMutexLock.constructor | src/xtopcom/xbase/xlock.h:187-192 | the initial state |
| RwLock.RwMutexLock.EnterToRead | src/xtopcom/xbase/xlock.h:150-156 | one pass of lock_read up to the wait or the return is the modelled step |
| RwLock.RwMutexLock.EnterToWrite | src/xtopcom/xbase/xlock.h:157-164 | one pass of lock_write; the pending count rises on the first pass only |
| RwLock.RwMutexLock.LeaveRead | src/xtopcom/xbase/xlock.h:165-172 | release_read with its conditional notify_one |
| RwLock.RwMutexLock.LeaveWrite | src/xtopcom/xbase/xlock.h:173-185 | release_write with notify_all or notify_one |
| SessionLimiter.RoundBound | src/libraries/xsync/xsession.h:23-38 | up to the end of its round a session accepts at most its remaining room |
| SessionLimiter.WindowBound | src/libraries/xsync/xsession.h:23-38 | a window no longer than the interval that begins before the round can end sees at most one more round |
| SessionLimiter.SlidingWindow | src/libraries/xsync/xsession.h:23-38 | every window of one interval holds at most 2*max(1, limit) acceptances in every run in which no reading falls behind the round it is compared with and no round starts before the reading that opened it |
| SessionLimiter.MonotoneWindow | src/libraries/xsync/xsession.h:23-38 | a clock that never steps back is one case |
| SessionLimiter.RestartBehindDecision | src/libraries/xsync/xsession.h:33-36 | the second half of the condition is needed: a second reading behind the first breaks the bound without any wrap |
| SessionLimiter.BoundIsTight | src/libraries/xsync/xsession.h:23-38 | a run that reaches the bound |
| SessionLimiter.BackwardClockDefeatsLimit | src/libraries/xsync/xsession.h:23-25 | a concrete backward clock breaks the bound through the unsigned difference |
| SessionLimiter.AdmittedAreTotalAccepts | src/libraries/xsync/xsession.h:49-59 | whatever the addresses and evictions, every admission is an acceptance of the total session |
| SessionLimiter.TotalWindowBound | src/libraries/xsync/xsession.h:41-59 | no window of one interval admits more than 2*max(1, total limit) requests over all addresses |
| SessionLimiter.FitsStep | src/xtopcom/xbasic/xlru_cache.h:43-66 | while the addresses fit the cache, nothing is evicted and entries stay unique |
| SessionLimiter.OthersUntouched | src/libraries/xsync/xsession.h:49-59 | a request neither brings another address into the cache nor touches its session |
| SessionLimiter.OthersStay | src/xtopcom/xbasic/xlru_cache.h:43-66 | and loses none while the addresses fit |
| SessionLimiter.OwnSessionDecides | src/libraries/xsync/xsession.h:49-59 | as long as every request of a cached address finds it in the cache, its admissions are exactly the acceptances of its own session |
| SessionLimiter.AddressWindowBound | src/libraries/xsync/xsession.h:49-59 | if all addresses fit the cache, each is held to 2*max(1, limit) in every window |
| SessionLimiter.FirstRequestBound | src/libraries/xsync/xsession.h:18-21 | the request that creates the session is covered by the same bound |
| SessionLimiter.RoundVerdicts | src/libraries/xsync/xsession.h:23-38 | the exact verdict of every call of a round: accepted until the limit is reached, refused from then on up to and including the last moment of the interval; the first call behind it opens a new round |
| SessionCache.CacheIsMostRecent | src/xtopcom/xbasic/xlru_cache.h:43-104 | after every run from an empty cache an address is cached if and only if it was asked for and fewer other addresses than the cache holds were asked for since; it stands behind exactly those |
| SessionCache.ComesBackReturns | src/xtopcom/xbasic/xlru_cache.h:43-66 | an address that always comes back before that many others is found every time |
| SessionCache.RecurringWindowBound | src/libraries/xsync/xsession.h:49-59 | such an address is held to 2*max(1, limit) in every window, however many addresses there are in all |
| SessionLimiter.TurnMisses | src/xtopcom/xbasic/xlru_cache.h:43-104 | one address more than fits, taking turns: every request misses |
| SessionLimiter.TurnsAllAdmitted | src/libraries/xsync/xsession.h:54-58 | and is admitted |
| SessionLimiter.OneAddressTooMany | src/libraries/xsync/xsession.h:49-59 | for every cache size n, n + 1 addresses defeat the limit per address: the size condition of AddressWindowBound is exact |
| SessionLimiter.Evict | src/xtopcom/xbasic/xlru_cache.h:96-104 | the clean-up loop keeps exactly the most recent entries that fit |
| SessionLimiter.SessionObject.constructor | src/libraries/xsync/xsession.h:18-21 | a new session counts the request that created it |
| SessionLimiter.SessionObject.Admit | src/libraries/xsync/xsession.h:23-38 | verdict and new fields are those of the specification, unsigned subtraction included |
| SessionLimiter.SessionManager.constructor | src/libraries/xsync/xsession.h:43-46 | the total starts at 0 requests |
| SessionLimiter.SessionManager.Request | src/libraries/xsync/xsession.h:49-59 | verdict and new state; the own session is not asked once the total refused |
| Bytes.LittleRoundTrip | src/xtopcom/xbase/xmem.h:1196-1262 | fixed-width little-endian bytes read back as the number |
| StreamCodec.IntRoundTrip | src/xtopcom/xbase/xmem.h:1196-1262 | every integer width, signed or not, survives |
| StreamCodec.EmplaceDistinct | src/xtopcom/xbase/xmem.h:1760-1807 | emplacing distinct keys keeps all of them in order |
| StreamCodec.EmplaceKeeps | src/xtopcom/xbase/xmem.h:1760-1807 | what a set or map held stays unchanged and in front, whatever is read into it, so an old entry wins over a new one with its key; nothing comes in twice |
| StreamCodec.EmplaceCovers | src/xtopcom/xbase/xmem.h:1760-1807 | and every element or key that was read is there afterwards |
| StreamCodec.RoundTrip | src/xtopcom/xbase/xmem.h:1170-1856 | every value nested from bools, integers, strings, vectors, lists, sets and maps reads back as itself and leaves the bytes behind it |
| StreamCodec.StringRoundTrip | src/xtopcom/xbase/xmem.h:1299-1313 | the string case |
| StreamCodec.ContainerRoundTrip | src/xtopcom/xbase/xmem.h:1316-1404 | the container cases, including the size check of the reader |
| StreamCodec.SizeCheckPasses | src/xtopcom/xbase/xmem.h:1784-1807 | the check on the (for maps doubled and wrapping) count never refuses what was written |
| StreamCodec.ManyRoundTrip | src/xtopcom/xbase/xmem.h:1316-1328 | count and elements in order |
| StreamCodec.ReadsInto | src/xtopcom/xbase/xmem.h:1657-1807 | reading into a container that is not empty adds behind what it holds: everything for a vector or list, what has no entry yet for a set or map |
| StreamCodec.PrefixThrows | src/xtopcom/xbase/xmem.h:1438-1856 | every strict prefix of an encoding throws |
| StreamCodec.ManyPrefixThrows | src/xtopcom/xbase/xmem.h:1657-1679 | so does every strict prefix of a run of elements |
| StreamCodec.UniquelyReadable | src/xtopcom/xbase/xmem.h:1170-1856 | a stream splits into a value and a rest in one way only |
| StreamCodec.BytesFastIsSlow | src/xtopcom/xbase/xmem.h:1330-1359 | the copying shortcut for byte vectors equals the element-wise form on every vector and on every input, malformed ones included |
| StreamCodec.SizedRoundTripIff | src/xtopcom/xbase/xmem.h:1880-1964 | a string behind a w-byte length survives if and only if its length fits that field |
| StreamCodec.StringIsSized | src/xtopcom/xbase/xmem.h:1299-1313 | the plain string operator is the four-byte case |
| CodecLayout.Layout | src/xtopcom/xbase/xmem.h:1170-1436 | the bytes of every value: one byte for a bool, byte i of an integer is its i-th base-256 digit in two's complement, a four-byte count and the bytes or elements in order |
| CodecLayout.AnyInteger | src/xtopcom/xbase/xmem.h:1466-1591 | any w bytes read as the integer they denote, negative if and only if signed and the top bit is set |
| CodecLayout.AnyBool | src/xtopcom/xbase/xmem.h:1438-1449 | any byte reads as a bool, true unless 0 |
| CodecLayout.TopBit | src/xtopcom/xbase/xmem.h:1466-1591 | a number is in the upper half of its range if and only if its last byte is at least 128 |
| ByteStream.Stream.Write | src/xtopcom/xbase/xmem.h:1170-1436 | operator << appends exactly the encoding and reports its size |
| ByteStream.Stream.WriteString | src/xtopcom/xbase/xmem.h:1299-1313 | length and bytes |
| ByteStream.Stream.WriteItems | src/xtopcom/xbase/xmem.h:1316-1328 | the element loop |
| ByteStream.Stream.ReadValue | src/xtopcom/xbase/xmem.h:1438-1856 | operator >> computes the decoder: value, rest and the number of bytes read, or a throw |
| ByteStream.Stream.ReadItems | src/xtopcom/xbase/xmem.h:1657-1679 | the container readers, into whatever the container holds, and the number of bytes read |
| ByteStream.Stream.WriteSized | src/xtopcom/xbase/xmem.h:1905-1938 | short and tiny strings, with the truncated length |
| ByteStream.Stream.ReadSized | src/xtopcom/xbase/xmem.h:1880-1964 | and back, with the number of bytes read |
| ByteStream.Stream.WriteToFront | src/xtopcom/xbase/xmem.h:1858-1877 | serialize_to_front puts a length prefix and the bytes before the content and reports their number |
| XData.CountSurvives | src/xtopcom/xbase/xdata.h:578-607 | the signed count of a storable container reads back |
| XData.DequeRoundTrip | src/xtopcom/xbase/xdata.h:578-607 | a deque of strings reads back as itself and leaves what follows |
| XData.DequePrefixThrows | src/xtopcom/xbase/xdata.h:578-607 | every strict prefix throws |
| XData.AssignPass | src/xtopcom/xbase/xdata.h:894-924 | assigning a full iterator pass over m into t gives t overridden by m, whatever the order |
| XData.EntriesRoundTrip | src/xtopcom/xbase/xdata.h:894-924 | the entries read back in the order written |
| XData.MapRoundTrip | src/xtopcom/xbase/xdata.h:894-924 | a map written in any iteration order reads back as itself into an empty map, and overrides a non-empty one |
| XData.MapPrefixThrows | src/xtopcom/xbase/xdata.h:894-924 | every strict prefix throws |
| XData.AssignOneMore | src/xtopcom/xbase/xdata.h:908-924 | the last assignment to a key wins |
| CodecLayout.NegativeCount | src/xtopcom/xbase/xdata.h:592-607 | a count with its top bit set reads as an empty container and leaves what follows |
| XData.StringObject.DoWrite | src/xtopcom/xbase/xdata.h:410-418 | the string behind its length, whose size is reported |
| XData.StringObject.DoRead | src/xtopcom/xbase/xdata.h:419-427 | the text is replaced by what the decoder reads, or the read throws and leaves it |
| XData.StringDeque.DoWrite | src/xtopcom/xbase/xdata.h:578-591 | the stream grows by the encoding, whose size is reported |
| XData.StringDeque.DoRead | src/xtopcom/xbase/xdata.h:592-607 | the deque grows by what the decoder reads, or the read throws |
| XData.StringMap.DoWrite | src/xtopcom/xbase/xdata.h:894-907 | as for the deque |
| XData.StringMap.DoRead | src/xtopcom/xbase/xdata.h:908-924 | the map is overridden by what the decoder reads |
| PacketFlags.WordRoundTrip | src/xtopcom/xbase/xbase.h:815-829 | the flag word and the record of flags determine each other |
| Pdu.BaseRoundTrip | src/xtopcom/xbase/xbase.h:854-876 | flags, header size and the 16- or 24-bit packet length come back from the fixed prefix |
| Pdu.HeaderSize | src/xtopcom/xbase/xpacket.h:980-985 | a written header fills its slot exactly |
| Pdu.ProductBound | src/xtopcom/xbase/xpacket.h:818-823 | for every packet the writer lets through, rate * size does not wrap 32 bits and is at least the raw body |
| Pdu.SpaceBound | src/xtopcom/xbase/xpacket.h:818-828 | the capped reservation holds the raw body |
| Pdu.HeaderRoundTrip | src/xtopcom/xbase/xpacket.h:762-799 | reading a written packet reaches the body stage with the same flags, tail, payload and rest |
| Pdu.Unsqueeze | src/xtopcom/xbase/xpacket.h:800-841 | decryption and decompression undo what the writer did, on the fall-back path too |
| Pdu.BodyRoundTrip | src/xtopcom/xbase/xpacket.h:800-887 | the body stage delivers the body and clears both flags |
| Pdu.PackShape | src/xtopcom/xbase/xpacket.h:898-1048 | which parts a packet is put together from |
| Pdu.RoundTrip | src/xtopcom/xbase/xpacket.h:758-1048 | every non-empty body within limits, every choice of compression, encryption and checksum, whatever flags earlier use left: one packet consumed, the body delivered, following bytes untouched |
| Pdu.EmptyBodyIff | src/xtopcom/xbase/xpacket.h:800-887 | an empty body is accepted if and only if compression was not asked for or produced nothing |
| PduSample.FieldsRoundTrip | src/xtopcom/xbase/xpacket.h:783-785 | a concrete header layout whose 32-bit checksum and 8-bit rate come back |
| PduSample.SampleIsLawful | src/xtopcom/xbase/xpacket.h:783-785 | concrete primitives that meet every law, so none of the packet results is empty |
| PduSample.SampleSends | src/xtopcom/xbase/xpacket.h:898-1048 | with them every body that leaves room in 16 bits can be sent with every choice of flags |
| PduSample.SampleEmptyBody | src/xtopcom/xbase/xpacket.h:800-887 | and an empty body can be packed in every way and is refused exactly when it was compressed |
| Pdu.ReadsInOrder | src/xtopcom/xbase/xpacket.h:758-895 | self-delimiting packets are read in order |
| Pdu.StreamOfPackets | src/xtopcom/xbase/xpacket.h:758-1048 | any sequence of packets in one stream is delivered in order, one call each |
| PduLaws.PrefixLayout | src/xtopcom/xbase/xbase.h:854-866 | the eight bytes of the fixed prefix |
| PduLaws.FlagBits | src/xtopcom/xbase/xbase.h:815-829 | which bits of the flag word say compressed, encrypted and extended |
| PduLaws.FlagsRead | src/xtopcom/xbase/xbase.h:854-876 | the flags and header size the reader takes from any eight bytes |
| PduLaws.LengthRead | src/xtopcom/xbase/xbase.h:854-876 | and the packet length, 16 or 24 bits |
| PduLaws.ParsedIff | src/xtopcom/xbase/xpacket.h:762-799 | a stream holds a packet if and only if the announced header and packet are all there and the header's own fields can be read |
| PduLaws.PackRefusedIff | src/xtopcom/xbase/xpacket.h:898-1048 | the writer refuses if and only if the body shrinks so much that the rate needs more than 8 bits |
| PduLaws.PacketCarries | src/xtopcom/xbase/xpacket.h:898-1048 | the header of every packet carries both flags, the digest of the body exactly when a checksum was asked for, and the rate; the payload is the body, compressed and encrypted as the flags say |
| PduLaws.DeliveredIff | src/xtopcom/xbase/xpacket.h:800-887 | on every stream, whoever wrote it: a body is delivered if and only if it can be recovered and the checksum is 0 or its digest; the packet is good if and only if moreover its reader takes some of it and no more |
| PduLaws.NoBody | src/xtopcom/xbase/xpacket.h:788-799 | a packet without body, and a stream without packet |
| PduLaws.ChecksumGuards | src/xtopcom/xbase/xpacket.h:844-870 | under a checksum no body with another digest is ever delivered |
| PduLaws.LeftBehind | src/xtopcom/xbase/xpacket.h:788-895 | what is left of the stream in every case, the failed checksum included |
| PduLaws.NewerHeader | src/xtopcom/xbase/xpacket.h:762-799 | what a longer header adds is skipped |
| PduLaws.ReservationCapped | src/xtopcom/xbase/xpacket.h:818-824 | no header can make the reader reserve more than a fixed amount |
| PduLaws.ReservationExact | src/xtopcom/xbase/xpacket.h:818-824 | how much exactly, the product that leaves 31 bits included |
| PduLaws.FlagsAfter | src/xtopcom/xbase/xpacket.h:800-887 | which flags the header object is left with in every case |
| PduStream.PduObject.Compress | src/xtopcom/xbase/xpacket.h:939-960 | compression with its fall-back; the rate limit is tested first |
| PduStream.PduObject.SerializeTo | src/xtopcom/xbase/xpacket.h:898-1048 | the stream grows by exactly the packet, or by a bare header slot when the rate does not fit |
| PduStream.PduObject.FillSlot | src/xtopcom/xbase/xpacket.h:961-988 | payload behind the slot, then the header into it |
| PduStream.PduObject.FinishPacket | src/xtopcom/xbase/xpacket.h:975-988 | stepping back over payload and slot, writing the header, stepping forward again |
| PduStream.PduObject.SerializeFrom | src/xtopcom/xbase/xpacket.h:758-895 | computes the specified result and leaves the specified stream, on every input, and a header object that can be written again |
| PduStream.PduObject.ReadBody | src/xtopcom/xbase/xpacket.h:800-887 | decrypt in place, decompress, checksum, hand over |
| PduStream.PduObject.Decipher | src/xtopcom/xbase/xpacket.h:803-812 | decryption in place of as many bytes as there were, and the flag cleared |
| PduStream.PduObject.HandOver | src/xtopcom/xbase/xpacket.h:843-880 | checksum test and delivery |
| BlockQueue.InitialInv | src/xtopcom/xbase/xmem.h:924-940 | the constructed queue satisfies the invariant |
| BlockQueue.CopyHolds | src/xtopcom/xbase/xmem.h:1028-1036 | copying into the last block keeps all blocks equal to the byte stream |
| BlockQueue.LinkHolds | src/xtopcom/xbase/xmem.h:1046-1077 | so does linking a new or recycled block |
| BlockQueue.ReadChunk | src/xtopcom/xbase/xmem.h:989-996 | what is copied out is the next piece of the stream |
| BlockQueue.NextExists | src/xtopcom/xbase/xmem.h:998-1005 | the consumer never crosses a block boundary into a null next |
| BlockQueue.ProduceInv | src/xtopcom/xbase/xmem.h:1020-1082 | every step of the producer keeps the invariant |
| BlockQueue.ConsumeInv | src/xtopcom/xbase/xmem.h:977-1018 | every step of the consumer keeps it |
| BlockQueue.StepInv | src/xtopcom/xbase/xmem.h:977-1082 | every step at all: links, contents, counters and ownership of every block ever allocated (linked, spare, in one hand, or freed) |
| BlockQueue.RunInv | src/xtopcom/xbase/xmem.h:977-1082 | every interleaving |
| BlockQueue.StepCopies | src/xtopcom/xbase/xmem.h:1020-1082 | only the start of a push adds to what is copied or still to be copied, and adds exactly its values |
| BlockQueue.RunCopies | src/xtopcom/xbase/xmem.h:1020-1082 | over every interleaving the copied bytes and the rest of the running push are the values of all pushes in order |
| BlockQueue.RunsRefineSequence | src/xtopcom/xbase/xmem.h:977-1082 | bytes popped are always a prefix of the bytes the pushes of the run were given, no null or freed block is used, the counter stays in range and, when both threads are idle, is what was pushed and not popped |
| BlockQueue.LoopsTerminate | src/xtopcom/xbase/xmem.h:987-1079 | each step uses up work of its own thread that the other cannot add to |
| BlockQueue.ChainLength | src/xtopcom/xbase/xmem.h:998-1080 | between calls exactly (front offset + size)/B + 1 blocks are linked and the back offset is below B |
| BlockQueue.Footprint | src/xtopcom/xbase/xmem.h:977-1082 | at every moment of every run the allocated and unfreed blocks are the linked ones and at most three more; between calls the linked ones and the spare one |
| BlockQueue.SpareFirst | src/xtopcom/xbase/xmem.h:998-1077 | a block is allocated only while there is no spare one, and what leaves or enters the spare slot passes through one thread's hand and is unlinked |
| BlockQueue.NegativePopInflates | src/xtopcom/xbase/xmem.h:977-984 | a negative count is not refused and makes the counter cover bytes never pushed |
| BlockQueue.PopSoundIff | src/xtopcom/xbase/xmem.h:977-1018 | on a non-empty queue a pop keeps the invariant if and only if its count is not negative |
| BlockQueue.EmptyPop | src/xtopcom/xbase/xmem.h:977-984 | on an empty queue every count does nothing |
| BlockQueue.Destroy | src/xtopcom/xbase/xmem.h:942-959 | the destructor frees every block ever allocated, none twice |
| BlockQueue.PushInPlace | src/xtopcom/xbase/xmem.h:1031-1032 | a push without a source is the push of the bytes that lie there already |
| BlockQueue.Queue.constructor | src/xtopcom/xbase/xmem.h:924-940 | an empty queue |
| BlockQueue.Queue.PushBack | src/xtopcom/xbase/xmem.h:1020-1082 | seen alone, appends the bytes |
| BlockQueue.Queue.PopFront | src/xtopcom/xbase/xmem.h:977-1018 | seen alone, removes and returns the first min(count, size) bytes; a negative count on a non-empty queue reports itself and leaves the counter that much too high |
| JsonString.Utf8Shape | src/xtopcom/https_client/cJSON.cpp:229-237 | the bytes written from the last to the first, by length |
| JsonString.Utf8IsStandard | src/xtopcom/https_client/cJSON.cpp:229-237 | a byte sequence is well-formed for a scalar value by the table of RFC 3629 if and only if it is these bytes |
| JsonString.BasicPlane | src/xtopcom/https_client/cJSON.cpp:216-237 | a four-digit escape of any scalar value of the basic plane, digits in either case, decodes to its UTF-8 form |
| JsonString.SupplementaryPlanes | src/xtopcom/https_client/cJSON.cpp:216-237 | a surrogate pair (section 2.1 of RFC 2781) decodes to the UTF-8 form of its scalar value |
| JsonString.StringRoundTrip | src/xtopcom/https_client/cJSON.cpp:191-307 | reading an escaped C string gives it back, whatever follows the closing quote |
| JsonString.UnicodeCount | src/xtopcom/https_client/cJSON.cpp:197-238 | an escape never writes more bytes than the first pass counted for its characters |
| JsonString.SpaceSuffices | src/xtopcom/https_client/cJSON.cpp:191-245 | a literal whose escapes are not cut short needs at most the counted bytes |
| JsonString.StaysIff | src/xtopcom/https_client/cJSON.cpp:203-245 | the second pass stays in the text if and only if its stopping point does, and then leaves what is behind that point |
| JsonString.SafeIsDefined | src/xtopcom/https_client/cJSON.cpp:197-245 | literals whose escapes are not cut short are read within text and space |
| JsonString.CutShort | src/xtopcom/https_client/cJSON.cpp:216-241 | an escape right before the terminator takes the second pass past it |
| JsonString.FirstPassLeaves | src/xtopcom/https_client/cJSON.cpp:197 | a text whose first pass steps over the terminator while the second does not |
| JsonString.SwallowedQuote | src/xtopcom/https_client/cJSON.cpp:197-245 | for every n, an escape that swallows the closing quote before n letters is read in bounds if and only if n is at most 4 |
| JsonString.PassesAgree | src/xtopcom/https_client/cJSON.cpp:197-245 | on such literals both passes stop at the same quote |
| JsonString.UnescapeNulFree | src/xtopcom/https_client/cJSON.cpp:191-249 | what is read is again a C string |
| JsonString.EscapeIsChars | src/xtopcom/https_client/cJSON.cpp:278-306 | every printed literal is in the grammar of section 7 of RFC 8259 |
| JsonString.StandardIsSafe | src/xtopcom/https_client/cJSON.cpp:191-245 | every literal of that grammar is read within the text and the counted space |
| JsonString.StandardLiteral | src/xtopcom/https_client/cJSON.cpp:191-249 | and up to its own closing quote |
| JsonLiteral.CountChars | src/xtopcom/https_client/cJSON.cpp:197 | the first pass |
| JsonLiteral.WriteUtf8 | src/xtopcom/https_client/cJSON.cpp:229-237 | the bytes of a code point land in place, earlier ones untouched |
| JsonLiteral.WriteUnicode | src/xtopcom/https_client/cJSON.cpp:216-238 | one UTF-16 escape, surrogates and their failure cases included |
| JsonLiteral.ReadString | src/xtopcom/https_client/cJSON.cpp:191-249 | on every literal that is read in bounds: the terminated array holds the specified text, every store is inside it, and the position behind the literal is returned |
| JsonReader.SkipFrom | src/xtopcom/https_client/cJSON.cpp:320 | the white-space loop |
| JsonReader.DigitsFrom | src/xtopcom/https_client/cJSON.cpp:102-107 | the digit loops |
| JsonReader.ReadNumber | src/xtopcom/https_client/cJSON.cpp:96-115 | computes the specified mantissa and exponent |
| JsonReader.ReadValue | src/xtopcom/https_client/cJSON.cpp:357-369 | accepts exactly what the specification accepts, with the same value and position |
| JsonReader.ReadArray | src/xtopcom/https_client/cJSON.cpp:406-431 | the item loop |
| JsonReader.ReadMember | src/xtopcom/https_client/cJSON.cpp:525-530 | name, colon, value |
| JsonReader.ReadObject | src/xtopcom/https_client/cJSON.cpp:514-547 | the member loop |
| JsonReader.Read | src/xtopcom/https_client/cJSON.cpp:323-337 | the whole document, strict or not |
| JsonGrammar.ShortRead | src/xtopcom/https_client/cJSON.cpp:209-239 | what each letter behind a backslash stands for |
| JsonGrammar.PiecesRead | src/xtopcom/https_client/cJSON.cpp:191-249 | a literal spelled by raw bytes, letter escapes, UTF-16 escapes and surrogate pairs is read as what its pieces stand for, up to its closing quote |
| JsonGrammar.NumberRead | src/xtopcom/https_client/cJSON.cpp:96-115 | sign, whole part, fraction and power in any form the grammar allows are read to their end and give the exact mantissa and exponent |
| JsonSpelled.StringRead | src/xtopcom/https_client/cJSON.cpp:191-249 | a quoted literal behind any position |
| JsonSpelled.SlotsRead | src/xtopcom/https_client/cJSON.cpp:406-431 | items with any white space before and behind each |
| JsonSpelled.EntryRead | src/xtopcom/https_client/cJSON.cpp:525-530 | a member with any white space before its name, around its colon and behind its value |
| JsonSpelled.EntriesRead | src/xtopcom/https_client/cJSON.cpp:514-547 | members with any white space around them |
| JsonSpelled.ValueRead | src/xtopcom/https_client/cJSON.cpp:357-369 | every spelling of a value is read as that value and used up, whatever follows that does not continue it |
| JsonSpelled.DocumentRead | src/xtopcom/https_client/cJSON.cpp:323-337 | a spelled document: read leniently, value and rest; read strictly, accepted if and only if only white space is behind the value |
| JsonAccepted.PiecesOf | src/xtopcom/https_client/cJSON.cpp:191-249 | every literal that is read splits into pieces of the grammar that stand for the result |
| JsonAccepted.NumberOf | src/xtopcom/https_client/cJSON.cpp:96-115 | so does every number |
| JsonAccepted.ItemsOf | src/xtopcom/https_client/cJSON.cpp:406-431 | and every array |
| JsonAccepted.MembersOf | src/xtopcom/https_client/cJSON.cpp:514-547 | and every object |
| JsonAccepted.ValueOf | src/xtopcom/https_client/cJSON.cpp:357-369 | conversely every accepted value is spelled by its text, except for a string that is never closed |
| JsonAccepted.AcceptedIsSpelled | src/xtopcom/https_client/cJSON.cpp:323-337 | the same for whole documents; nothing but white space is left of one read strictly |
| JsonShortest.PiecesShortest | src/xtopcom/https_client/cJSON.cpp:278-306 | no standard literal of a string is shorter than the one printed |
| JsonShortest.NumberShortest | src/xtopcom/https_client/cJSON.cpp:147-163 | no form of a number is shorter than the one printed |
| JsonShortest.TextShortest | src/xtopcom/https_client/cJSON.cpp:372-403 | no standard text of a tree is shorter than its unformatted text |
| JsonConforms.StringWritten | src/xtopcom/https_client/cJSON.cpp:252-307 | the printed literal is a standard spelling of the string |
| JsonConforms.TextWritten | src/xtopcom/https_client/cJSON.cpp:372-403 | the printed text of a tree, in either format and at any depth, is a standard spelling of it |
| JsonConforms.ShortestOfAll | src/xtopcom/https_client/cJSON.cpp:372-403 | the unformatted text is the shortest of all standard texts of the tree |
| JsonSteps.FoldDecimal | src/xtopcom/https_client/cJSON.cpp:147-163 | decimal digits denote the number they were printed from |
| JsonRoundTrip.NumberRoundTrip | src/xtopcom/https_client/cJSON.cpp:96-115 | every printed integer parses back, if no digit, point or exponent follows |
| JsonRoundTrip.LiteralRoundTrip | src/xtopcom/https_client/cJSON.cpp:191-307 | every printed C string parses back |
| JsonRoundTrip.ValueRoundTrip | src/xtopcom/https_client/cJSON.cpp:357-403 | every printable tree parses back in any context, at any depth, in either format |
| JsonRoundTrip.RoundTrip | src/xtopcom/https_client/cJSON.cpp:323-343 | parsing the formatted or unformatted text of any printable tree gives the tree and consumes the whole text, strict or not |
| JsonMinify.LiteralKept | src/xtopcom/https_client/cJSON.cpp:746 | string literals pass through unchanged, comment signs inside them included |
| JsonMinify.ValueMinified | src/xtopcom/https_client/cJSON.cpp:735-750 | the text of any tree, in any context, minifies to its unformatted text |
| JsonMinify.MinifyPrint | src/xtopcom/https_client/cJSON.cpp:735-750 | minifying the formatted text gives the unformatted text, and minifying that changes nothing |
| JsonTokens.TokenMinified | src/xtopcom/https_client/cJSON.cpp:735-750 | of one token in front of any text, white space and comments go, literals and other bytes stay |
| JsonTokens.RowMinified | src/xtopcom/https_client/cJSON.cpp:735-750 | minifying any row of tokens leaves exactly what the row shows |
| JsonTokens.CompleteIsRow | src/xtopcom/https_client/cJSON.cpp:735-750 | and every text with no literal or comment left open is such a row |
| JsonTokens.LineCommentRemoved | src/xtopcom/https_client/cJSON.cpp:744 | a line comment goes, up to its newline or the end of the text |
| JsonTokens.BlockCommentRemoved | src/xtopcom/https_client/cJSON.cpp:745 | a block comment goes if its inside does not begin with a slash |
| JsonTokens.SlashEndsComment | src/xtopcom/https_client/cJSON.cpp:745 | a slash right behind the opening mark already closes the comment |
| JsonTokens.SlashCommentStays | src/xtopcom/https_client/cJSON.cpp:745 | a comment that is not removed for that reason |
| JsonMinify.StopsIff | src/xtopcom/https_client/cJSON.cpp:735-750 | the reader ends on the terminator if and only if no literal or comment is left open |
| JsonMinify.OpenLiteral | src/xtopcom/https_client/cJSON.cpp:746 | every literal that is never closed takes it past the terminator |
| JsonMinify.OpenComment | src/xtopcom/https_client/cJSON.cpp:745 | so does every comment that is never closed |
| JsonMinify.SkipLine | src/xtopcom/https_client/cJSON.cpp:744 | a line comment up to its newline |
| JsonMinify.SkipComment | src/xtopcom/https_client/cJSON.cpp:745 | a block comment |
| JsonMinify.CopyLiteral | src/xtopcom/https_client/cJSON.cpp:746 | a literal copied in place |
| JsonMinify.MinifyInPlace | src/xtopcom/https_client/cJSON.cpp:735-750 | the array ends up holding the minified text and terminator; the write index never passes the read index, so nothing unread is overwritten |
| JsonMemory.Length | src/xtopcom/https_client/cJSON.cpp:143 | strlen of a C string held in an array |
| JsonMemory.HasEscapes | src/xtopcom/https_client/cJSON.cpp:256 | if the scan finds nothing, escaping changes nothing |
| JsonMemory.EscapedLength | src/xtopcom/https_client/cJSON.cpp:278 | the counted length is exactly that of the escaped string |
| JsonMemory.PutEscaped | src/xtopcom/https_client/cJSON.cpp:286-302 | one byte, escaped |
| JsonMemory.PutQuoted | src/xtopcom/https_client/cJSON.cpp:257-306 | literal and terminator fill exactly the counted space |
| JsonMemory.PrintNulFree | src/xtopcom/https_client/cJSON.cpp:372-403 | no printed text contains the terminator |
| JsonMemory.IntegerLength | src/xtopcom/https_client/cJSON.cpp:157-162 | a 32-bit integer fits its 21 bytes |
| JsonPrinter.PrintString | src/xtopcom/https_client/cJSON.cpp:252-307 | the array is exactly as long as literal and terminator, or allocation was refused |
| JsonPrinter.PrintNumber | src/xtopcom/https_client/cJSON.cpp:147-175 | the number as text, in 2, 21 or 64 bytes |
| JsonPrinter.PrintValue | src/xtopcom/https_client/cJSON.cpp:372-403 | nothing if an allocation was refused, else exactly the text of the tree |
| JsonPrinter.ArrayFits | src/xtopcom/https_client/cJSON.cpp:437-509 | the size counted for an array covers brackets, separators and terminator |
| JsonPrinter.MemberFits | src/xtopcom/https_client/cJSON.cpp:617-624 | the size counted for a member covers tabs, name, colon, value, comma and newline |
| JsonPrinter.ObjectFits | src/xtopcom/https_client/cJSON.cpp:553-656 | the size counted for an object covers its text and terminator at every depth |
| JsonPrinter.CollectItems | src/xtopcom/https_client/cJSON.cpp:475-484 | the children's texts and the counted size |
| JsonPrinter.ComposeArray | src/xtopcom/https_client/cJSON.cpp:499-509 | every store is inside the counted size and the result is the text |
| JsonPrinter.PrintArray | src/xtopcom/https_client/cJSON.cpp:434-511 | both passes together |
| JsonPrinter.CollectMembers | src/xtopcom/https_client/cJSON.cpp:617-624 | names, values and the counted size; later members are still printed after a refusal |
| JsonPrinter.PutMember | src/xtopcom/https_client/cJSON.cpp:642-650 | one member |
| JsonPrinter.ComposeObject | src/xtopcom/https_client/cJSON.cpp:639-656 | every store is inside the counted size and the result is the text |
| JsonPrinter.ComposeEmpty | src/xtopcom/https_client/cJSON.cpp:560-569 | the empty object |
| JsonPrinter.PrintObject | src/xtopcom/https_client/cJSON.cpp:550-658 | both passes together |
| BufferSize.Doubled | src/xtopcom/https_client/cJSON.cpp:117 | each shift-or doubles the distance a bit has spread |
| BufferSize.FilledValue | src/xtopcom/https_client/cJSON.cpp:117 | all bits below the highest set one: one less than a power of two, less than twice the word |
| BufferSize.Pow2GtIsLeast | src/xtopcom/https_client/cJSON.cpp:117 | pow2gt of every 0 < x <= 2^31 is the power of two p with x <= p < 2x |
| JsonBuffer.PrintBuffer.constructor | src/xtopcom/https_client/cJSON.cpp:345-350 | the initial buffer |
| JsonBuffer.PrintBuffer.Ensure | src/xtopcom/https_client/cJSON.cpp:121-136 | room for the asked bytes, everything written so far kept, or a refused allocation |
| JsonBuffer.PrintBuffer.Update | src/xtopcom/https_client/cJSON.cpp:138-144 | finds the true end of the text behind the offset, nested values included |
| JsonBuffer.PrintBuffer.Append | src/xtopcom/https_client/cJSON.cpp:457-463 | a piece behind the head |
| JsonBuffer.PrintBuffer.Finish | src/xtopcom/https_client/cJSON.cpp:466-467 | a text and terminator behind the head |
| JsonBuffer.PrintBuffer.PrintString | src/xtopcom/https_client/cJSON.cpp:252-307 | a literal behind the head |
| JsonBuffer.PrintBuffer.PrintNumber | src/xtopcom/https_client/cJSON.cpp:147-175 | a number behind the head |
| JsonBuffer.PrintBuffer.PrintValue | src/xtopcom/https_client/cJSON.cpp:372-403 | the text of the tree behind what was there, or a refused allocation; the reported start is right for the root |
| JsonBuffer.PrintBuffer.PrintArray | src/xtopcom/https_client/cJSON.cpp:453-468 | the same for arrays |
| JsonBuffer.PrintBuffer.PrintObject | src/xtopcom/https_client/cJSON.cpp:570-607 | the same for objects, whose reported start the tab loop overwrites |
| JsonBuffer.PrintBuffered | src/xtopcom/https_client/cJSON.cpp:345-353 | for every tree, format and initial size: nothing if an allocation was refused, else exactly the text the two-pass printer produces, from the start of the buffer |
| JsonBuffer.AllocateAtLeast | src/xtopcom/https_client/cJSON.cpp:128-130 | the new size is the least power of two that is enough |
| JsonList.Item.Walk | src/xtopcom/https_client/cJSON.cpp:677 | the child at a position |
| JsonList.Item.Add | src/xtopcom/https_client/cJSON.cpp:666-671 | appends; the next chain is the new sequence and prev its exact inverse |
| JsonList.Item.Detach | src/xtopcom/https_client/cJSON.cpp:677-678 | removes; the detached item is unlinked |
| JsonList.Item.Insert | src/xtopcom/https_client/cJSON.cpp:684-685 | inserts before a position, or appends |
| JsonList.Item.Replace | src/xtopcom/https_client/cJSON.cpp:686-688 | replaces; the old item is handed back unlinked |
| JsonList.Item.Apply | src/xtopcom/https_client/cJSON.cpp:671-688 | one edit of any kind is the edit of the sequence |
| JsonList.Item.ApplyAll | src/xtopcom/https_client/cJSON.cpp:671-688 | any run of edits with different loose items: the next chain is the sequence the run amounts to, each item once, and prev its exact inverse |
| JsonList.EditConserves | src/xtopcom/https_client/cJSON.cpp:661-688 | one edit takes out and puts in exactly what it says |
| JsonList.RunConserves | src/xtopcom/https_client/cJSON.cpp:661-688 | over any run of edits what is in the list and what was taken out is what was there and what was put in |
| JsonList.InsertThenDetach | src/xtopcom/https_client/cJSON.cpp:677-685 | detaching what was inserted gives the list back |
| JsonList.ReplaceIsDetachInsert | src/xtopcom/https_client/cJSON.cpp:677-688 | replacing is detaching and inserting at the same place |
| JsonList.PastTheEnd | src/xtopcom/https_client/cJSON.cpp:671-688 | behind the end an insertion appends, and nothing is detached or replaced |

## Left out

- xBFT, xsync apart from the session limiter, xvnode, xapplication, consensus and account logic.
- HTTP, RPC, database, command-line and dashboard code: I/O and foreign libraries.
- The bodies of LZ4, AES, the hashes and the header's own fields: only their laws are used.
- Memory orders weaker than sequential consistency, yield counts, logging and metrics.
- The spinning loops of the spin lock and its scoped holders: they repeat the modelled attempts, and nothing bounds how often.
- Fairness of either lock: that a given client is eventually served.
- Overflow of the blocking lock's 32-bit counters.
- BlockQueue.Queue.PushBack: has no null source; `PushInPlace` shows that such a push is the push of the bytes that lie behind the offset already.
- The packet variants of serialize_to and serialize_from, which mirror the stream pair that is modelled.
- The map of data objects, whose writer emits a count its reader does not consume, and cloning of containers.
- The 128-bit and wide-integer stream operators, and nested buffers: they would repeat the integer and string cases.
- Byte order other than little-endian.
- How the C library formats a double, and rounding of doubles on the reading side.
- The error position the JSON parser records, and refused allocations while parsing.
- The JSON tree as linked nodes while parsing and printing: a value tree stands for it, and the list edits are proved on linked nodes separately.
- Searching children by name, references, duplication and deletion of JSON items.
- Overflow of the C `int` lengths of the two-pass JSON printer, and its bookkeeping arrays of child texts.
- A missing name or string pointer in a JSON tree.
- JsonRoundTrip.RoundTrip: numbers are 32-bit integers, because the text of another double need not denote the same number.
- JsonMinify.MinifyInPlace: asks for a complete text; on every other the source runs past the terminator (`StopsIff`).
- JsonReader.ReadValue: asks for a text without an `Overrun`, where the source reads or writes out of bounds.
- JsonSpelled.ValueRead: asks that no escape holds a quote or backslash where its digits should be, because the source may leave the text there (`Defined` says exactly when).
- JsonBuffer.PrintBuffer.PrintValue: says where the text starts for the root only, because the tab loop of a formatted object overwrites the remembered start.
- Pdu.RoundTrip: needs a body of at most 16776960 bytes, a packet length that fits the header's length field, and a body reader that accepts what was written.
- SessionLimiter.SlidingWindow: needs a clock whose readings do not fall behind the round they are compared with, nor behind the reading that opened it; `BackwardClockDefeatsLimit` and `RestartBehindDecision` show why.
- SessionLimiter.TotalWindowBound: stated for a clock that never steps back.
