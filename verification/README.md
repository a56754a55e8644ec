# Verified model of the Layer 4 services

This project models the device services that hold logic of their own, and proves what they
promise: over every input, every run, and every point at which power may fail.  Each component is
an imperative model (classes over arrays, with the loops of the code) that is proved equal to a
specification, and theorems about that specification.  Machine words have their true widths.

| files | what they model |
|---|---|
| `Sequences`, `Words`, `Lfsr`, `Crc`, `CrcPolynomial`, `CrcWords`, `CrcValues` | a law of concatenation; machine words and their bits; the algebra of shift registers; the checksums as loops, as remainders of polynomials, and evaluated on known octets: CRC-32 (section 8 of RFC 1952) and CRC-16 (section 6.2.2 of the MODBUS over Serial Line guide) |
| `Frame` | the binary frame codec |
| `SlotCodec`, `SlotTears` | the configuration slot and what an interrupted erase or write leaves of it |
| `ConfigTable`, `ConfigDevice`, `ConfigRuns` | the table as a map, the two-slot commit protocol, and its theorems over runs |
| `ByteCursor`, `Storage`, `ConfigService` | byte readers and writers, flash that fails part-way, and the configuration service itself |
| `JsonText`, `JsonRead`, `Json` | the printed document, what the scanner reads in it, and printer and scanner themselves |
| `Messages`, `RingBuffer`, `OfflineQueue`, `Telemetry` | envelopes and topics, the circular buffer, store-and-forward, telemetry |
| `Dispatcher` | commands: parsing, idempotency, routing, responses |
| `Ota`, `OtaPorts` | firmware updates, and what they ask of their ports |
| `Clock`, `Button`, `Network` | a wrapping millisecond clock, the debouncer, the link manager with its backoff |
| `Provisioning` | provisioning on top of the configuration service |

The classes with state of their own (`ConfigService`, `CommandDispatcher`, `OtaService`,
`ButtonInput`, `NetworkManager`, `ProvisioningService`, `TelemetryService`) carry their
history as ghost state, and their invariants say that they are where the machine is after it.  The
theorems about all runs of the machine are therefore theorems about the objects: a `ConfigService` made
on erased flash stays the device of its run (`Tracked`) under every operation.

## Where the code differs from its documentation

* The configuration README says that an interrupted new slot falls back to the previous one.
  `SlotTears.TornOutcome` gives the exact condition under which an interrupted write is read as a
  table nobody committed, and `ConfigRuns.CrashSafetyNeedsTheHypothesis` a run in which it happens.
  Runs without such a stop, without the boots described two points below, and with fewer than 2^32
  writes are called lawful.
* Slot sequence numbers are compared without regard to wrapping (`ConfigRuns.CommitSurvivesUnlessWrapped`,
  with a run in `ConfigRuns.WrappedCommitIsLost`).
* The configuration README says that storage failures propagate.  If at boot only the slot with the
  newest table cannot be read, the older table is loaded and success reported
  (`ConfigRuns.BootLoadsNewestExactly`, `ConfigRuns.StaleBoot`).
* An escaped character in a JSON string reads as itself, so that an escaped n is the letter and no line
  break as in section 7 of RFC 8259 (`JsonRead.ScanAnyEscape`).
* The frame header is declared five octets long while the payload starts at octet four.  The octet
  after the payload is never written, but is transmitted and covered by the checksum.
* The README of the update service speaks of verified images only.  On a 32-bit `size_t` this holds
  up to 2^32 - 1024 octets and for no larger image (`Ota.SafeExactlyUpTo`); the same bound decides
  whether a download is sure to end (`Ota.EndsInTimeExactlyUpTo`).
* Credentials have 130 octets and configuration values at most 64, so provisioning over the real
  store always fails (`Provisioning.ProvisionableExactly`); and three failures enter the failed
  state only modulo 256 (`Provisioning.FailedExactly`, `Provisioning.ManyFailuresReopen`).
* A button held for 2^32 ms or more is classified modulo 2^32 (`Button.ReleaseClassifiedExactly`,
  `Button.LongHoldReportsShortPress`), and a link whose retry is overdue by between 2^31 and 2^32 ms is
  not started (`Network.StartedExactly`, `Network.OverdueRetryStartsNothing`).

## Model

| member | source | states |
|---|---|---|
| `ConfigTable.SetUpdatesMap` | components/services/configuration/src/ConfigService.cpp:70-89 | on a clean table, setting updates the map the table stands for and keeps it clean (keys unique, terminated, 1 to 23 long); it fails exactly for keys not 1 to 23 long or values over 64, or when the key is new and the map is full |
| `ConfigTable.EraseUpdatesMap` | components/services/configuration/src/ConfigService.cpp:123-128 | erasing removes exactly the key, and reports not found exactly when it was not mapped |
| `ConfigTable.FoundIffMapped` | components/services/configuration/src/ConfigService.cpp:140-146 | the linear search finds a key exactly when the map has it, and then at the record holding its value |
| `ConfigTable.SetThenGet` | components/services/configuration/src/ConfigService.cpp:91-106 | after setting a word, the lookup of its key finds the four octets that denote it, and lookups of every other key are as before; what the typed reads make of that is in the next rows |
| `ConfigService.WordReadBack` | components/services/configuration/src/ConfigService.cpp:91-106 | in any table whatsoever, get_u32 after a successful set_u32 yields the same word, and reads other keys as before |
| `ConfigService.BoolReadBack` | components/services/configuration/src/ConfigService.cpp:108-121 | the same for get_bool after set_bool |
| `ConfigService.WordReadsMap` | components/services/configuration/src/ConfigService.cpp:91-99 | in terms of the map: ok exactly for four octets, which are then those of the word; not found, no resources and corrupt exactly for a missing key, more octets, fewer octets; otherwise the caller's variable stays |
| `ConfigService.BoolReadsMap` | components/services/configuration/src/ConfigService.cpp:108-116 | in terms of the map: ok exactly for a single octet zero or one, and which error for anything else |
| `ConfigService.ConfigService.SetAndGetU32` | components/services/configuration/src/ConfigService.cpp:91-106 | the object itself: setting a word and getting it gives the word back, or if setting fails whatever was read before |
| `ConfigService.ConfigService.SetAndGetBool` | components/services/configuration/src/ConfigService.cpp:108-121 | the same for a boolean |
| `ConfigService.ConfigService.SetAndGetBlob` | components/services/configuration/src/ConfigService.cpp:58-89 | the same for any value, read into a buffer of its size |
| `ConfigTable.RestoredClean` | components/services/configuration/src/ConfigService.cpp:172-187 | a table made from a slot is clean, and its used records are the stored ones in order |
| `SlotCodec.SlotRoundTrip` | components/services/configuration/src/ConfigService.cpp:155-217 | reading the slot image of any storable table of at most 24 entries gives that table, with its sequence number |
| `SlotCodec.ParseCanonical` | components/services/configuration/src/ConfigService.cpp:155-188 | conversely, a payload that is accepted starts with the encoding of what was read from it |
| `SlotCodec.Body` | components/services/configuration/src/ConfigService.cpp:190-210 | the encoded table never exceeds 2145 of 2300 octets, so the writer cannot run out of room |
| `SlotCodec.SlotHead` | components/services/configuration/src/ConfigService.cpp:190-199 | a slot starts with the characters CFG1, the little-endian sequence number and the number of records |
| `SlotCodec.SlotRecords` | components/services/configuration/src/ConfigService.cpp:200-208 | each record stands behind the one before: key size, value size, key, value |
| `SlotCodec.SlotTail` | components/services/configuration/src/ConfigService.cpp:191-211 | behind the last record come zeros, and at place 2300 the checksum of all before |
| `SlotCodec.BurstIsCorrupt` | components/services/configuration/src/ConfigService.cpp:163-164 | a slot image changed in any burst of up to 32 consecutive bits is not read |
| `SlotTears.HalfErasedIsCorrupt` | components/services/configuration/src/ConfigService.cpp:214-215 | however far an erase got, a slot whose erase has begun is not read |
| `SlotTears.TornEarly` | components/services/configuration/src/ConfigService.cpp:214-216 | a write stopped before the last record's text leaves nothing readable, whatever the checksum does |
| `SlotTears.TornOutcome` | components/services/configuration/src/ConfigService.cpp:155-217 | a write stopped anywhere leaves nothing readable or exactly the table being written if and only if the stop is not deceptive: within the last record's text, changing it, with a colliding checksum |
| `SlotTears.DeceptiveTearExists` | components/services/configuration/src/ConfigService.cpp:163-164 | for every sequence number there is a table and a stop that is deceptive, so the checksum alone is no guarantee |
| `ConfigRuns.InvHolds` | components/services/configuration/src/ConfigService.cpp:31-56 | after every lawful run of set, erase, commit, interrupted commit and boot: the table is clean, the active slot holds the table in force with the current sequence number, and the other slot is unreadable, older, or the one attempt still open |
| `ConfigRuns.CrashSafety` | components/services/configuration/src/ConfigService.cpp:31-56 | after every lawful run, a reboot loads the last table committed or loaded, or the single one whose write was begun last, if its slot has not been erased since |
| `ConfigRuns.CrashSafetyNeedsTheHypothesis` | components/services/configuration/src/ConfigService.cpp:163-188 | a run of one set and one interrupted first commit after which a reboot loads a table that was never to be stored: the documented fallback has this exception |
| `ConfigRuns.Durable` | components/services/configuration/src/ConfigService.cpp:130-138 | after a successful commit with no later write begun, whatever table changes, boots and failing erases follow, a reboot loads exactly the committed table |
| `ConfigRuns.DurableMap` | components/services/configuration/src/ConfigService.cpp:130-138 | the same for the map callers see |
| `ConfigRuns.PreviousCommitRecovered` | components/services/configuration/src/ConfigService.cpp:31-56 | after two successful commits with only table changes and boots between them and since, damaging the newest slot in any burst of up to 32 bits makes a reboot load exactly the table of the first |
| `ConfigRuns.PreviousMapRecovered` | components/services/configuration/src/ConfigService.cpp:31-56 | and the map in RAM is then the one of the first commit |
| `ConfigRuns.PreviousLookupRecovered` | tests/unit/ConfigurationSecurityTests.cpp:49-61 | and every key is then looked up as it was at the first commit |
| `ConfigRuns.FourOctetsRecovered` | tests/unit/ConfigurationSecurityTests.cpp:49-61 | on the same runs, the same for any non-empty change confined to four adjacent octets anywhere in the slot |
| `ConfigRuns.CommitSurvivesUnlessWrapped` | components/services/configuration/src/ConfigService.cpp:49-52 | on a device with a clean table whose active slot holds nothing or a table with the current number, a successful commit is what a reboot loads unless the active slot holds a table and the sequence number was 2^32 - 1; then that table is loaded, for the comparison does not wrap |
| `ConfigRuns.WrappedCommitIsLost` | components/services/configuration/src/ConfigService.cpp:49-52 | an honest run of 2^32 writes ends in a successful commit that a reboot does not load, so the bound of lawful runs is exact |
| `ConfigRuns.SoundBootIs` | components/services/configuration/src/ConfigService.cpp:31-56 | a boot whose decisive reads succeed reports success and leaves the same as a boot with working reads |
| `ConfigDevice.BootTakes` | components/services/configuration/src/ConfigService.cpp:31-56 | with both slots read, a boot takes the table with the larger sequence number, the first of two equal, and defaults if there is none |
| `ConfigRuns.BootLoadsNewestExactly` | components/services/configuration/src/ConfigService.cpp:38-56 | on lawful runs a boot succeeds with the newest table if and only if the reads that matter succeed |
| `ConfigRuns.StaleBoot` | components/services/configuration/src/ConfigService.cpp:45-52 | after two commits, a boot that can read only the older slot reports success with the older table, and the next commit reuses the newest one's sequence number |
| `ConfigService.TextLength` | components/services/configuration/src/ConfigService.cpp:11-16 | the length of a C string, or the capacity if it is null or not terminated before |
| `ConfigService.TextEqual` | components/services/configuration/src/ConfigService.cpp:18-25 | equality of two terminated strings, false for null and for strings that do not end within the capacity |
| `ConfigService.ConfigService.Find` | components/services/configuration/src/ConfigService.cpp:140-146 | the first record with the key, or -1 |
| `ConfigService.ConfigService.FindFree` | components/services/configuration/src/ConfigService.cpp:148-153 | the first unused record, or -1 |
| `ConfigService.ConfigService.GetBlob` | components/services/configuration/src/ConfigService.cpp:58-68 | copies what is stored; size and error codes for missing keys, null and short buffers; nothing else changes |
| `ConfigService.ConfigService.SetBlob` | components/services/configuration/src/ConfigService.cpp:70-89 | is the machine's set, with its status; flash, sequence and active slot are untouched, and an object traced from construction stays the device of its run |
| `ConfigService.ConfigService.GetU32` | components/services/configuration/src/ConfigService.cpp:91-99 | the little-endian word stored, or not found, no resources or corrupt by its size |
| `ConfigService.ConfigService.SetU32` | components/services/configuration/src/ConfigService.cpp:101-106 | is the machine's set of the four little-endian octets |
| `ConfigService.ConfigService.GetBool` | components/services/configuration/src/ConfigService.cpp:108-116 | a single octet zero or one; anything else is an error |
| `ConfigService.ConfigService.SetBool` | components/services/configuration/src/ConfigService.cpp:118-121 | is the machine's set of one octet |
| `ConfigService.ConfigService.Erase` | components/services/configuration/src/ConfigService.cpp:123-128 | is the machine's erase, with its status |
| `ConfigService.ConfigService.Initialize` | components/services/configuration/src/ConfigService.cpp:31-56 | is the machine's boot for whatever the two reads report, including the error that leaves everything as it was; the boot joins the run |
| `ConfigService.ConfigService.ReadSlotInto` | components/services/configuration/src/ConfigService.cpp:155-188 | yields the status, sequence number and table that the slot's octets determine |
| `ConfigService.ConfigService.WriteSlot` | components/services/configuration/src/ConfigService.cpp:190-217 | leaves in the slot the image of the used records, or as much of it as a failing erase or write got to; the other slot is untouched |
| `ConfigService.ConfigService.Commit` | components/services/configuration/src/ConfigService.cpp:130-138 | is the machine's commit: only a completed write moves on to the new slot and sequence number; the outcome joins the run |
| `Storage.Storage.Erase` | tests/unit/ConfigurationSecurityTests.cpp:24-28 | sets octets to 0xFF; a failing erase may have done so for some of them; beyond the end it is refused with nothing changed |
| `Storage.Storage.Write` | tests/unit/ConfigurationSecurityTests.cpp:18-23 | stores octets; a failing write may have stored the first few; null data or a place beyond the end is refused with nothing changed |
| `Storage.Storage.Read` | tests/unit/ConfigurationSecurityTests.cpp:13-17 | copies octets into the target or fails; a null target or a place beyond the end is refused |
| `ByteCursor.ByteWriter.WriteBytes` | components/libraries/serialization/include/libraries/ByteWriter.hpp:26-33 | appends all octets or, when they do not fit or are null though some are asked for, nothing, and then marks the overflow |
| `ByteCursor.ByteWriter.WriteU32` | components/libraries/serialization/include/libraries/ByteWriter.hpp:20-25 | appends the little-endian octets under the same rule |
| `ByteCursor.ByteReader.ReadBytes` | components/libraries/serialization/include/libraries/ByteReader.hpp:31-35 | reads the next octets, or nothing at all when there are fewer or the target is null |
| `ByteCursor.ByteReader.ReadU32` | components/libraries/serialization/include/libraries/ByteReader.hpp:22-30 | reads a little-endian word |
| `Words.WordOfLittleEndian` | components/libraries/serialization/include/libraries/ByteReader.hpp:22-30 | reading the four octets of a word gives the word |
| `Words.LittleEndianOfWord` | components/libraries/serialization/include/libraries/ByteWriter.hpp:20-25 | writing the word of four octets gives the octets |
| `Words.CounterIsModulo` | components/services/telemetry/include/services/TelemetryService.hpp:23-31 | a 32-bit counter that is incremented n times shows n modulo 2^32; this is the sense of modulo in the rows on counters |
| `Lfsr.StepInjective` | components/libraries/include/libraries/Crc32.hpp:12-15 | one shift of the register is injective, because the polynomial's top bit is set |
| `Lfsr.RunLinear` | components/libraries/include/libraries/Crc32.hpp:8-18 | the register is linear in the start value and the message together |
| `Lfsr.RunSurjective` | components/libraries/include/libraries/Crc32.hpp:8-18 | every register value is reached from some start value over any message |
| `Lfsr.BurstDetected` | components/libraries/include/libraries/Crc32.hpp:8-18 | two messages that differ within one register width leave different registers |
| `Lfsr.EmptiedOnlyByItself` | components/libraries/include/libraries/Crc32.hpp:8-18 | the register is emptied by exactly one continuation of its own width: its own contents |
| `Crc.Crc32` | components/libraries/include/libraries/Crc32.hpp:8-18 | the bit-serial loop over words computes the checksum defined on bit lists |
| `Crc.Crc16` | components/libraries/include/libraries/Crc16.hpp:8-19 | the same for CRC-16/MODBUS |
| `CrcPolynomial.Crc32IsRemainder` | components/libraries/include/libraries/Crc32.hpp:8-18 | a word is the CRC-32 of a message if and only if its complement is the remainder of the message, its first 32 bits inverted and 32 added, divided by the polynomial with the exponents 32, 26, 23, 22, 16, 12, 11, 10, 8, 7, 5, 4, 2, 1, 0 |
| `CrcPolynomial.Crc16IsRemainder` | components/libraries/include/libraries/Crc16.hpp:8-19 | likewise for CRC-16, without the complement, and the exponents 16, 15, 2, 0 |
| `CrcPolynomial.LeavesOne` | components/libraries/include/libraries/Crc32.hpp:8-18 | division of polynomials leaves one remainder only, so that the two rows above determine the checksums |
| `CrcValues.CheckValue32` | components/libraries/include/libraries/Crc32.hpp:8-18 | the CRC-32 of the characters 1 to 9 is 0xCBF43926, the published check value |
| `CrcValues.TestedValue32` | tests/unit/Layer4FoundationTests.cpp:58-60 | the CRC-32 of the octets 1 to 4 is 0xB63CFBCD |
| `CrcValues.CheckValue16` | components/libraries/include/libraries/Crc16.hpp:8-19 | the CRC-16/MODBUS of the characters 1 to 9 is 0x4B37, the published check value |
| `Crc.Residue32` | components/libraries/include/libraries/Crc32.hpp:8-18 | after a block and its stored CRC-32 the register does not depend on the block |
| `Crc.Residue16` | components/libraries/include/libraries/Crc16.hpp:8-19 | after a block and its stored CRC-16 the register is zero |
| `Crc.Crc32DetectsBursts` | components/libraries/include/libraries/Crc32.hpp:8-18 | no checksummed block turns into another one by a burst of up to 32 bits |
| `Crc.Crc16DetectsBursts` | components/libraries/include/libraries/Crc16.hpp:8-19 | the same for CRC-16 and 16 bits |
| `Frame.Encode` | components/protocols/frame/include/protocols/FrameCodec.hpp:25-48 | the encoded frame with the octet left in the unwritten place, the octets behind it untouched, and the exact failure conditions |
| `Frame.Decode` | components/protocols/frame/include/protocols/FrameCodec.hpp:50-79 | the decoding function, with its status for every malformed input |
| `Frame.RoundTrip` | components/protocols/frame/include/protocols/FrameCodec.hpp:25-79 | decoding an encoded frame gives it back, whatever the unwritten octet was, if and only if the payload has at most 255 octets |
| `Frame.ReencodeAccepted` | components/protocols/frame/include/protocols/FrameCodec.hpp:25-79 | encoding what was decoded over the accepted input reproduces it octet by octet |
| `Frame.AcceptedExactly` | components/protocols/frame/include/protocols/FrameCodec.hpp:50-79 | an input is accepted exactly if its first two octets are A5 5A, its third is its length less seven and within the maximum, and its last two are the CRC-16 of the others; the fourth octet is the opcode, the payload starts at the fifth place |
| `Frame.RefusedExactly` | components/protocols/frame/include/protocols/FrameCodec.hpp:50-70 | which of the three statuses any other input gets |
| `Frame.WireForm` | components/protocols/frame/include/protocols/FrameCodec.hpp:25-48 | the encoded frame, octet by octet |
| `Frame.BurstRejected` | components/protocols/frame/include/protocols/FrameCodec.hpp:66-70 | a frame changed in any burst of up to 16 bits is rejected |
| `Frame.TwoOctetsRejected` | components/protocols/frame/include/protocols/FrameCodec.hpp:50-70 | a frame changed in any two adjacent octets, including length, padding and checksum, is rejected |
| `JsonText.FindInDocument` | components/libraries/serialization/include/libraries/JsonScanner.hpp:55-73 | in a printed document with plain keys the untokenised search finds exactly the value of the first field of that key, whatever the string values contain |
| `JsonText.FindInSpaced` | components/libraries/serialization/include/libraries/JsonScanner.hpp:55-73 | the same in any flat object with blanks and tabs before keys, around colons and after values |
| `JsonText.ThreeFields` | tests/unit/Layer4FoundationTests.cpp:43-47 | the text printed for three fields, with braces and commas |
| `JsonText.PrintedBool` | tests/unit/Layer4FoundationTests.cpp:43-47 | the text printed for a boolean field |
| `JsonText.PrintedNumber` | tests/unit/Layer4FoundationTests.cpp:43-47 | the text printed for a number field |
| `JsonText.PrintedString` | tests/unit/Layer4FoundationTests.cpp:43-47 | the text printed for a string field |
| `JsonText.PrintedEscape` | components/libraries/serialization/include/libraries/JsonWriter.hpp:35-43 | quotes and backslashes are printed behind a backslash |
| `JsonRead.ScanEscaped` | components/libraries/serialization/include/libraries/JsonScanner.hpp:39-52 | unescaping an escaped string gives it back exactly when it fits the buffer |
| `JsonRead.ScanAnyEscape` | components/libraries/serialization/include/libraries/JsonScanner.hpp:39-52 | whatever characters are escaped, each reads as itself, the n of an escaped n included |
| `JsonRead.NumberOfDecimal` | components/libraries/serialization/include/libraries/JsonWriter.hpp:22-34 | the printed digits denote the number |
| `JsonRead.ReadsWhatWasWritten` | components/libraries/serialization/include/libraries/JsonScanner.hpp:12-52 | every key of a printed document reads as exactly the value written (strings if they fit), in its own type and in no other |
| `JsonRead.ReadsSpaced` | components/libraries/serialization/include/libraries/JsonScanner.hpp:12-73 | in any flat object with plain keys, blanks anywhere between its tokens, every plain key reads as the value of its first field, in its own type and in no other, or not at all |
| `JsonRead.AbsentKeyNotRead` | components/libraries/serialization/include/libraries/JsonScanner.hpp:55-73 | a key that was not written is not found in any type |
| `Json.JsonScanner.FindValue` | components/libraries/serialization/include/libraries/JsonScanner.hpp:55-73 | the search loop computes the position of the first value of the key |
| `Json.JsonScanner.GetString` | components/libraries/serialization/include/libraries/JsonScanner.hpp:39-52 | the unescaped, terminated string exactly when it fits; the scanned bytes are unchanged |
| `Json.JsonScanner.GetU32` | components/libraries/serialization/include/libraries/JsonScanner.hpp:26-37 | a digit run is accepted exactly when it denotes at most 2^32 - 1, and then yields that number |
| `Json.JsonScanner.GetBool` | components/libraries/serialization/include/libraries/JsonScanner.hpp:12-24 | true or false, or nothing and the caller's variable untouched |
| `Json.ParseStep` | components/libraries/serialization/include/libraries/JsonScanner.hpp:30-34 | the overflow test before a further digit is exact |
| `Json.JsonWriter.FieldString` | components/libraries/serialization/include/libraries/JsonWriter.hpp:35-43 | appends the field with its quotes and backslashes escaped, or as much as fits with the overflow marked |
| `Json.JsonWriter.FieldU32` | components/libraries/serialization/include/libraries/JsonWriter.hpp:22-34 | appends the field with the decimal digits, or as much as fits |
| `Json.JsonWriter.FieldBool` | components/libraries/serialization/include/libraries/JsonWriter.hpp:19-21 | appends the field, or as much as fits |
| `Json.JsonWriter.FieldPrefix` | components/libraries/serialization/include/libraries/JsonWriter.hpp:52-56 | appends separator, quoted key and colon, or as much as fits; a null key fails after the opening quote |
| `Json.JsonWriter.EndObject` | components/libraries/serialization/include/libraries/JsonWriter.hpp:16-18 | closes the object, needing room for the terminator as well |
| `Json.OpenedGrows` | components/libraries/serialization/include/libraries/JsonWriter.hpp:52-56 | one more field extends the open document by its separator and text |
| `Json.ClosedIsDocument` | components/libraries/serialization/include/libraries/JsonWriter.hpp:12-18 | what begin, fields and end write is the printed document |
| `RingBuffer.FixedRingBuffer.TryPush` | components/libraries/ring_buffer/include/libraries/FixedRingBuffer.hpp:12-18 | appends to the sequence the buffer stands for, unless full |
| `RingBuffer.FixedRingBuffer.TryPop` | components/libraries/ring_buffer/include/libraries/FixedRingBuffer.hpp:20-26 | removes and yields the oldest element, unless empty |
| `RingBuffer.FixedRingBuffer.Peek` | components/libraries/ring_buffer/include/libraries/FixedRingBuffer.hpp:28-32 | yields the oldest element without removing it |
| `RingBuffer.FixedRingBuffer.DropOldest` | components/libraries/ring_buffer/include/libraries/FixedRingBuffer.hpp:34-39 | removes the oldest element, unless empty |
| `RingBuffer.FixedRingBuffer.Clear` | components/libraries/ring_buffer/include/libraries/FixedRingBuffer.hpp:41-45 | empties the sequence |
| `OfflineQueue.OfflineQueue.Enqueue` | components/services/offline_queue/include/services/OfflineQueue.hpp:11-32 | stores an unchanged copy at the end; when full, drops the oldest and counts it if allowed, and refuses otherwise |
| `OfflineQueue.OfflineQueue.CommitFront` | components/services/offline_queue/include/services/OfflineQueue.hpp:37-39 | removes the oldest message |
| `OfflineQueue.QueueLosesOnlyTheOldest` | tests/unit/MessagingTelemetryTests.cpp:48-57 | what is queued is the message itself at the end; a full queue gives up its oldest message if allowed, and nothing otherwise |
| `Messages.StoreAndReplay` | components/services/telemetry/include/services/TelemetryService.hpp:38-45 | what replay sends for a queued message equals the message that was queued |
| `Messages.Topics.Build` | components/protocols/mqtt/src/MqttTopics.cpp:34-51 | the topic is built exactly when its name fits in 95 characters, and then holds that name |
| `Messages.TopicsDistinct` | components/protocols/mqtt/src/MqttTopics.cpp:12-51 | topics of different kinds, and of different channels of one kind, differ |
| `Messages.TopicNames` | tests/unit/MessagingTelemetryTests.cpp:31-36 | the names of all kinds for the site and the device of the tests |
| `Messages.Transport.Publish` | components/services/telemetry/include/services/TelemetryService.hpp:22-26 | may only follow a positive answer of the transport about its connection, which telemetry and dispatcher are proved to respect |
| `Telemetry.EveryRunBalances` | components/services/telemetry/include/services/TelemetryService.hpp:10-49 | after every run, published, queued and dropped together are exactly the encoded messages; queue and drops are in order and within capacity |
| `Telemetry.ExactlyOnePlace` | components/services/telemetry/include/services/TelemetryService.hpp:10-49 | every encoded message is in exactly one of the three places, exactly once |
| `Telemetry.DocumentFits` | components/services/telemetry/include/services/TelemetryService.hpp:11-16 | a telemetry document never exceeds 48 characters, so encoding cannot fail |
| `Telemetry.MessageReadsBack` | components/services/telemetry/include/services/TelemetryService.hpp:10-21 | scanning a published message gives back time, sequence number and value |
| `Telemetry.DeliveredIsNumbered` | components/services/telemetry/include/services/TelemetryService.hpp:10-49 | every message the transport has accepted is the encoded one, and its sequence number is its place in the order of encoding modulo 2^32, drops and replays notwithstanding |
| `Telemetry.TelemetryService.PublishBool` | components/services/telemetry/include/services/TelemetryService.hpp:10-33 | one more message with the next sequence number is published or queued; a topic that does not fit changes nothing. The class invariant ties transport, queue and counters (modulo 2^32, see `Words.CounterIsModulo`) to the ledger |
| `Telemetry.TelemetryService.ReplayOne` | components/services/telemetry/include/services/TelemetryService.hpp:34-49 | the oldest message leaves the queue only when it has been published, unchanged |
| `Dispatcher.RunIsSpaced` | components/services/command_dispatcher/src/CommandDispatcher.cpp:56-71 | in every run, processed commands at most eight apart have different ids |
| `Dispatcher.ParsesSpaced` | components/services/command_dispatcher/src/CommandDispatcher.cpp:28-38 | any flat object, however spaced and ordered, is understood by its first fields id and name, strings of under 16 and 24 characters, and its first field value if that is a boolean; otherwise it is no command |
| `Dispatcher.ParsesCommand` | tests/unit/CommandDispatcherTests.cpp:55-57 | a printed command gives its own id, name and value, with or without a value, and is no command if id or name are too long |
| `Dispatcher.CommandIsPassedOn` | components/services/command_dispatcher/src/CommandDispatcher.cpp:38-48 | the authorizer and then the handler of that name are asked about exactly that request, unless the id is among the last eight |
| `Dispatcher.OtherwiseCorrupt` | components/services/command_dispatcher/src/CommandDispatcher.cpp:32-37 | a message without a fitting id or name is answered as corrupt under an empty id, and nothing is asked |
| `Dispatcher.ExecutionsSeparated` | components/services/command_dispatcher/src/CommandDispatcher.cpp:39-48 | two entries of the log of processed commands with one id are separated by at least eight processed commands of mutually different other ids |
| `Dispatcher.AuthorisationsSeparated` | components/services/command_dispatcher/src/CommandDispatcher.cpp:39-48 | in a journal of calls that belongs to a run, between two authorizer calls for one id there are at least eight others, the last eight of them for mutually different other ids |
| `Dispatcher.HandlingsSeparated` | components/services/command_dispatcher/src/CommandDispatcher.cpp:39-48 | and so between two calls of handlers for one id: each handler call directly follows its own successful authorisation |
| `Dispatcher.CommandDispatcher.CallsSeparated` | components/services/command_dispatcher/src/CommandDispatcher.cpp:28-50 | both hold of the calls a dispatcher has made since its construction, whatever it received: its invariant keeps journal and log of processed commands in step |
| `Dispatcher.CachedIffRecent` | components/services/command_dispatcher/src/CommandDispatcher.cpp:56-63 | a command is answered without processing exactly when its id is among the last eight processed |
| `Dispatcher.RepeatGetsSameAnswer` | components/services/command_dispatcher/src/CommandDispatcher.cpp:39-42 | such a repeat gets the status and state of the first answer |
| `Dispatcher.CacheRotates` | components/services/command_dispatcher/src/CommandDispatcher.cpp:64-71 | replacing the slot at the index keeps the eight slots equal to the last eight processed in ring order |
| `Dispatcher.ResponseFits` | components/services/command_dispatcher/src/CommandDispatcher.cpp:72-79 | a response never exceeds 66 characters, so it always fits the 256-octet buffer |
| `Dispatcher.ResponseScansBack` | components/services/command_dispatcher/src/CommandDispatcher.cpp:75-79 | scanning a response gives back id and state, and its status code belongs to the status of the response and to no other |
| `Status.CodeTellsStatus` | components/uhal/core/include/uhal/Status.hpp:7-22 | the code of a status is its place among the enumerators, so that codes and statuses determine each other |
| `Dispatcher.CommandDispatcher.AddHandler` | components/services/command_dispatcher/src/CommandDispatcher.cpp:23-27 | adds a handler while there are fewer than sixteen |
| `Dispatcher.CommandDispatcher.FindHandler` | components/services/command_dispatcher/src/CommandDispatcher.cpp:51-55 | the first handler of that name, or none |
| `Dispatcher.CommandDispatcher.FindCached` | components/services/command_dispatcher/src/CommandDispatcher.cpp:56-63 | the response recalled from the last eight processed commands |
| `Dispatcher.CommandDispatcher.Execute` | components/services/command_dispatcher/src/CommandDispatcher.cpp:43-47 | authorises first and calls the named handler exactly if that succeeds |
| `Dispatcher.CommandDispatcher.Respond` | components/services/command_dispatcher/src/CommandDispatcher.cpp:72-89 | hands over exactly the response document, if its topic fits |
| `Dispatcher.CommandDispatcher.ResponseAnswers` | components/services/command_dispatcher/src/CommandDispatcher.cpp:72-89 | the response handed over is addressed to the device's response topic, at least once, with the correlation of the request, and reads as id, status and state; it reached the transport, or the end of the queue, or the queue was full |
| `Dispatcher.CommandDispatcher.OnMessage` | components/services/command_dispatcher/src/CommandDispatcher.cpp:28-50 | whatever octets arrive, one response with the request's id goes to the transport or else is offered to the queue; ports are called only for commands not recently processed, which are then remembered |
| `Ota.EveryRunMatches` | components/services/ota_manager/src/OtaService.cpp:6-86 | after every run the machine's state agrees with what the trace of port calls shows |
| `OtaPorts.RequestsWhatIsMissing` | components/services/ota_manager/src/OtaService.cpp:20-30 | in every run each request asks the fetcher for the octets that follow those already stored, 1024 or all that are missing, for images of up to 2^32 - 1024 octets |
| `OtaPorts.OneRequestPerChunk` | components/services/ota_manager/src/OtaService.cpp:20-42 | in every run a piece is requested only when none is outstanding, and a chunk taken only when one is |
| `OtaPorts.AcceptedWhenOpened` | components/services/ota_manager/src/OtaService.cpp:6-17 | an offer is accepted only right after store and digest were opened, the store for the image's very size |
| `OtaPorts.StateFollowsCalls` | components/services/ota_manager/src/OtaService.cpp:6-86 | in every run the state is the one the last call of a port stands for: ready after closing the store, activating after activation, idle or failed after an abort |
| `OtaPorts.FailsExactlyWhenRefused` | components/services/ota_manager/src/OtaService.cpp:6-69 | the service fails exactly when a port refuses or a chunk is unusable, and then aborts the store |
| `Ota.ActivationIsSafe` | components/services/ota_manager/src/OtaService.cpp:63-69 | activation is requested at most once per accepted offer and, up to 2^32 - 1024 octets, only when writes tile the image, the digest was fed the same octets and equals the promised one, the signature was accepted and the store closed |
| `Ota.SafeExactlyUpTo` | components/services/ota_manager/src/OtaService.cpp:34-42 | that holds for an image size, in every run, if and only if the size is at most 2^32 - 1024 |
| `Ota.LargeImageWraps` | components/services/ota_manager/src/OtaService.cpp:34-42 | for every larger image there is a run that becomes ready to activate without the image being proven |
| `Ota.PollProgresses` | components/services/ota_manager/src/OtaService.cpp:18-62 | every poll whose take is not busy ends the download or lowers the measure (twice what is missing, plus one while nothing is requested), if and only if no stored chunk ends beyond 2^32 |
| `Ota.DownloadEnds` | components/services/ota_manager/src/OtaService.cpp:18-62 | a download of at most 2^32 - 1024 octets ends within twice as many such polls as the image has octets |
| `Ota.EndsInTimeExactlyUpTo` | components/services/ota_manager/src/OtaService.cpp:18-62 | that holds for an image size, whatever the ports answer, if and only if the size is at most 2^32 - 1024 |
| `Ota.LargeDownloadGoesOn` | components/services/ota_manager/src/OtaService.cpp:34-42 | for every larger image there are answers with which the download is not over by then |
| `Ota.OtaService.Offer` | components/services/ota_manager/src/OtaService.cpp:6-17 | the machine's offer with its status; calls of the ports are those of the trace |
| `Ota.OtaService.Poll` | components/services/ota_manager/src/OtaService.cpp:18-62 | the machine's poll; the class invariant keeps state and port calls those of the run |
| `Ota.OtaService.Verify` | components/services/ota_manager/src/OtaService.cpp:43-61 | digest, signature and store are checked in that order and the first failure aborts |
| `Ota.OtaService.Activate` | components/services/ota_manager/src/OtaService.cpp:63-69 | only a ready image is activated, and a failed activation aborts |
| `Ota.OtaService.Cancel` | components/services/ota_manager/src/OtaService.cpp:70-75 | aborts the store and returns to idle from every state |
| `Button.LevelFromHistory` | components/libraries/button/src/ButtonInput.cpp:7-21 | the debounced level is that of the last raw change if a later sample is a debounce time away from it by the clock, and otherwise the level before that change |
| `Button.LevelInRealTime` | components/libraries/button/src/ButtonInput.cpp:7-21 | in real time, exactly, while the clock has not come round since the last raw change |
| `Button.AcceptedOnlyWhenSettled` | components/libraries/button/src/ButtonInput.cpp:7-21 | a change is accepted only if all samples since the last raw change agree and the debounce time has passed in real time, without any bound on the clock |
| `Button.Alternates` | components/libraries/button/src/ButtonInput.cpp:18-25 | accepted presses and releases strictly alternate, beginning with a press |
| `Button.EventFromHistory` | components/libraries/button/src/ButtonInput.cpp:7-30 | the event of every sample, from the history alone; a release is classified by the time since its own press modulo 2^32 |
| `Button.ReleaseByRange` | components/libraries/button/src/ButtonInput.cpp:26-29 | for any settings, which of the four answers a release gets, by the ranges of the hold as the clock shows it |
| `Button.DefaultRanges` | components/libraries/button/src/ButtonInput.cpp:26-29 | with the default settings and holds below 2^32 ms: short up to one second, commissioning from five, factory reset from ten, nothing between one and five |
| `Button.ReleaseClassifiedExactly` | components/libraries/button/src/ButtonInput.cpp:26-29 | the class is that of the real hold if and only if the hold is below 2^32 ms or shows as a factory reset anyway |
| `Button.LongHoldReportsShortPress` | components/libraries/button/src/ButtonInput.cpp:26-29 | a hold of 2^32 + 100 ms is reported as a short press |
| `Button.HoldFromHistory` | components/libraries/button/src/ButtonInput.cpp:38-40 | the hold time is that since the last accepted press modulo 2^32, and zero while released |
| `Button.ButtonInput.Update` | components/libraries/button/src/ButtonInput.cpp:7-30 | is one step of the machine; the invariant keeps the fields those of the history of samples, and the event is that of the new sample |
| `Button.ButtonInput.HoldMs` | components/libraries/button/src/ButtonInput.cpp:38-40 | is the hold time of the history so far |
| `Clock.SinceIsElapsed` | components/libraries/button/src/ButtonInput.cpp:14-14 | unsigned subtraction of clock readings is the elapsed time modulo 2^32, however often the clock wrapped |
| `Clock.SeenIsModulo` | components/libraries/button/src/ButtonInput.cpp:14-14 | a reading is the real time modulo 2^32; this is the sense of modulo in the rows on clocks |
| `Network.BudgetKept` | components/services/network_manager/src/NetworkManager.cpp:25-32 | between resets a link is started at most ten times |
| `Network.StartsSpaced` | components/services/network_manager/src/NetworkManager.cpp:25-32 | in real time each start of a link keeps the delay issued with every earlier one, across clock wraps and resets |
| `Network.TenStartsSpan` | components/libraries/retry/include/libraries/Backoff.hpp:15-33 | ten starts without a reset take at least 1950 seconds |
| `Network.DueExactly` | components/services/network_manager/src/NetworkManager.cpp:26-27 | the signed comparison lets a start through exactly when its delay has passed and the time since then shows as less than 2^31 ms |
| `Network.StartedExactly` | components/services/network_manager/src/NetworkManager.cpp:25-32 | in a poll with no link up, a link is started exactly if no earlier one accepted in the same poll and budget, delay and that half-turn condition allow it |
| `Network.StateMeans` | components/services/network_manager/src/NetworkManager.cpp:14-34 | after every run and a poll: primary exactly if the first link is up, backup exactly if only the second is, connecting exactly if none is up and some link was started, offline otherwise |
| `Network.NoStartAfterAccepted` | components/services/network_manager/src/NetworkManager.cpp:25-32 | in one poll no link is started after one that answered ok or busy |
| `Network.RenewedExactly` | components/services/network_manager/src/NetworkManager.cpp:14-21 | a poll renews the budget of a link, and makes it the active one, exactly if it is the first one up |
| `Network.UnprovisionedExactly` | components/services/network_manager/src/NetworkManager.cpp:3-8 | provisioning is required before anything has happened and never after |
| `Network.DelayDoubles` | components/libraries/retry/include/libraries/Backoff.hpp:15-19 | the delays start at 30 seconds and double up to 300 |
| `Network.HalfTurnStartsNothing` | components/services/network_manager/src/NetworkManager.cpp:26-27 | a link that was never started is not started by a poll at 2^31 ms |
| `Network.OverdueRetryStartsNothing` | components/services/network_manager/src/NetworkManager.cpp:26-27 | a retry due at 30 s is not made by a poll 2^31 ms later, with budget left and no link up |
| `Network.EveryRunKept` | components/services/network_manager/src/NetworkManager.cpp:12-34 | after every run each link's attempt count and retry time are those of its log, whose starts are ordered, spaced and scheduled |
| `Network.BackoffPolicy.NextDelay` | components/libraries/retry/include/libraries/Backoff.hpp:15-19 | issues 30, 60, 120, 240 and then always 300 seconds, and counts up to the budget |
| `Network.NetworkManager.Add` | components/services/network_manager/src/NetworkManager.cpp:3-8 | adds a link while there are fewer than two |
| `Network.NetworkManager.Poll` | components/services/network_manager/src/NetworkManager.cpp:12-34 | is one step of the machine at that time; an observer is told exactly the changes of state, each with kind and quality of the active link, or of the first one when none is up |
| `Provisioning.EntryIsStored` | components/services/provisioning/src/ProvisioningService.cpp:31-44 | every entry to provisioned is a poll that validated, set and committed the same credentials, with nothing else done to the store in between |
| `Provisioning.ProvisionedIsDurable` | components/services/provisioning/src/ProvisioningService.cpp:35-44 | on lawful store runs a reboot right then finds the credentials under their key and all other keys as they were in RAM |
| `Provisioning.FactoryResetIsDurable` | components/services/provisioning/src/ProvisioningService.cpp:47-57 | after a completed factory reset, on lawful store runs, a reboot finds no credentials and all other keys as they were |
| `Provisioning.PortalPolled` | components/services/provisioning/src/ProvisioningService.cpp:21-46 | a poll of an open portal in full, by real time: past the timeout it closes, without credentials it waits, and an answered validation is decided |
| `Provisioning.ValidationPolled` | components/services/provisioning/src/ProvisioningService.cpp:31-46 | while credentials are validated nothing times out, and the answer decides |
| `Provisioning.OtherwisePolled` | components/services/provisioning/src/ProvisioningService.cpp:21-46 | in every other state a poll does nothing |
| `Provisioning.ProvisionedStays` | components/services/provisioning/src/ProvisioningService.cpp:6-57 | once provisioned, exactly a successful start, a completed factory reset or a boot end it |
| `Provisioning.StopGivesUp` | components/services/provisioning/src/ProvisioningService.cpp:14-20 | what stopping does in every state |
| `Provisioning.ProvisionableExactly` | components/services/configuration/src/ConfigService.cpp:73-75 | with this store, provisioned is reachable in some run if and only if the credentials have at most 64 octets and the portal's timeout is not zero |
| `Provisioning.ActualCredentialsNeverProvisioned` | components/services/provisioning/include/services/ProvisioningService.hpp:6-10 | with the actual 130 octets, whatever the timeout, no run of the composed system ever becomes provisioned |
| `Provisioning.FailedExactly` | components/services/provisioning/src/ProvisioningService.cpp:61-65 | a failed attempt ends in failed if and only if the number of failures since the last success or reset is at least three modulo 256 |
| `Provisioning.ManyFailuresReopen` | components/services/provisioning/src/ProvisioningService.cpp:61-65 | a run of 256 failed attempts without success or reset ends with the portal open |
| `Provisioning.SecretsWiped` | components/services/provisioning/src/ProvisioningService.cpp:66-69 | outside the open portal and validation the pending credentials are all zero |
| `Provisioning.ProvisioningService.Start` | components/services/provisioning/src/ProvisioningService.cpp:6-13 | opens the portal and notes the time, or changes nothing |
| `Provisioning.ProvisioningService.Stop` | components/services/provisioning/src/ProvisioningService.cpp:14-20 | wipes the credentials, and leaves the provisioned state alone |
| `Provisioning.ProvisioningService.Poll` | components/services/provisioning/src/ProvisioningService.cpp:21-46 | is one step of the machine, with the configured timeout, composed with the configuration service; the event joins the run |
| `Provisioning.ProvisioningService.FactoryReset` | components/services/provisioning/src/ProvisioningService.cpp:47-57 | erases and commits; only a completed commit resets state and counter |

## Left out

- Platform code (ESP32-C6, STM32H5, STM32L4), products, examples: register and SDK calls and composition.
- EnvironmentMonitor, BinarySwitchService, Sht3x, ModbusRtuMaster, DiagnosticsService, HealthMonitor, SecurityPolicy, IndicationService, TimeSyncService, Deadline, StateMachine, EventBus, EventQueue, MqttSessionPolicy: thin or small, and would only add easy members.
- Cryptography, transports, portals, fetchers and links are ports: their results are arbitrary, and what they were asked is recorded where a property needs it.
- Concurrency and interrupts: the components leave synchronisation to products, and every call is one step.
- The 16-bit reads and writes of the byte cursors and the getters of sizes and states: nothing here uses them beyond their one line.
- Lawful runs of the configuration device exclude boots that miss the newest table, cut writes with a colliding checksum, and 2^32 or more writes; each exclusion has its exact condition and a counterexample.
- Flash is taken to be erased and written from the lowest address upwards, with 0xFF as the erased octet, as the test double does; a write that stops in the middle of an octet is not modelled.
- Caller buffers are distinct from the service's own buffers, and strings passed in are terminated.
- Characters are octets taken as unsigned, so a platform with signed `char` is covered for ASCII keys only.
- Fixed character buffers of command ids, handler names and topics in the dispatcher are strings, and records and queued messages are values in an array.
- MqttTopics.build is a function rather than its loop, since only the resulting name and its length matter here.
- `Network.Links`: polling a link settles whether it is up, what a start would answer, and its kind and quality, until the next poll.
- Ota: image versions, `rolled_back` and the fetcher's own polling do not affect the state machine; `Ota.ActivationIsSafe` covers all image sizes for the count of activations, and sizes up to 2^32 - 1024 for the evidence, which `Ota.SafeExactlyUpTo` shows to be exact.
- Credentials are octets without inner structure, and the portal's own behaviour is arbitrary.
