# DoorSim card-reader pipeline in Dafny

DoorSim is an ESP32 firmware that simulates a door controller with a Wiegand
card reader. This project models its reader pipeline and proves properties
about it:

- **Bit capture.** Two falling-edge interrupt handlers (`ISR_INT0` for a 0
  bit on DATA0 and `ISR_INT1` for a 1 bit on DATA1) do four things:
  - count bits (`bitCount`): DATA0 always, DATA1 only while the buffer
    has room;
  - write a 1 into the 100-entry capture buffer (`databits`), DATA1 only;
    a 0 bit is the 0 that `clearDatabits` left in that entry;
  - shift each bit into one of two 32-bit accumulators (`bitHolder1` up to
    the 22nd bit, `bitHolder2` after it);
  - restart a 3000-pass countdown (`weigandCounter`).
- **Frame timer and drain.** Each pass of the main loop decrements the
  countdown and sets `flagDone` when it reaches zero. A settled frame with
  at least one bit is then processed, printed and logged when its length
  passes the print gate, and the capture state is reset (`cleanupCardData`,
  `clearDatabits`).
- **Frame decoder.** A ten-row table keyed by bit length (26, 27, 29–36)
  gives the facility-code and card-number ranges. Each range is read as a
  big-endian 32-bit number (`decodeHIDFacilityCode`,
  `decodeHIDCardNumber`). The table also gives three packing offsets.
- **Canonical hex.** `setCardChunkBits` repacks the accumulators into two
  chunks. `hexCardData` is `String(cardChunk1, HEX)` followed by
  `String(cardChunk2, HEX)` zero-padded to six digits (`prefixPad`).
- **Credential list.** Up to 100 records, looked up by `checkCredential`,
  a first-match search over 16-bit arguments. The array logic of the
  `/addCard` and `/deleteCard` web handlers is modelled.
- **Verdict and read log.** `printCardData` sets the status and details:
  "Authorized" or "Unauthorized" in CTF mode, "Read" with upper-cased hex
  otherwise. It then appends the record to a 100-entry log that keeps the
  oldest reads.

## Modelling choices

- **Numbers.** `unsigned long` and `unsigned int` are 32 bits on the target.
  Every shift, and every increment that can wrap, is taken modulo 2^32
  explicitly. DATA1's `bitCount + 1` is not wrapped: that count stays at
  or below 100.
- **Registers.** The accumulators and chunks are only shifted and read or
  written bit by bit. They are modelled as a `Word`, a sequence of 32
  booleans with bit i at index i; `Value` is the number it holds.
- **Classes.** The globals that the handlers and the loop update in place
  are classes:
  - `Capture.Reader` for the capture globals;
  - `Credentials.CredentialStore` for `credentials[]` and `validCount`;
  - `ReadLog.CardLog` for `cardDataArray` and `cardDataIndex`;
  - `DoorSim.Simulator` for the card fields and the main loop.
- **Step functions.** Each method is proved against a function on values:
  - `CaptureState` with `Int0Step`, `Int1Step` and `TickStep`;
  - `HIDUpdate`, `ProcessUpdate` and `PrintUpdate` on `CardFields`;
  - `FirstMatch` and `Remove` on credential sequences;
  - `Logged` on the log.

  What several calls do together (a whole frame, a whole countdown, a run
  of log appends) is proved about those functions.
- **Integer parameters.** The web handlers get their integers from
  `String::toInt`; here they are parameters (`Option<Int32>`, with `None`
  when the query parameter is missing). The HTTP outcome is an enum.
- **Mode.** `MODE` is a two-valued enum: CTF, or any other mode (`Debug`).
  The firmware's `/saveSettings` handler can change it at run time
  (src/main.cpp:960); the model fixes the mode for a run (`Simulator.mode`
  is a constant), so every statement about the mode holds between two
  settings changes.

## Model

| member | source | states |
|---|---|---|
| Words.ShiftInValue | src/main.cpp:144-153 | shifting a bit into a 32-bit register, `(x << 1) \| b`, is `(2x + b) mod 2^32` on its value: the top bit is lost |
| Words.BigEndianBound | src/main.cpp:581-599 | k bits, each 0 or 1, read big-endian are below 2^k |
| Words.BigEndianInjective | src/main.cpp:581-599 | two bit strings of equal length with the same big-endian value are equal |
| Words.BigEndianSplit | src/main.cpp:581-599 | the first k bits of a bit string are its value divided by 2^(rest), the rest its remainder |
| Words.ValueOfReversed | src/main.cpp:144-153 | a register holding a frame's bits with the last one received in bit 0 holds the frame's big-endian value |
| Text.HexString | src/main.cpp:745 | `String(n, HEX)` has only the digits 0-9 and a-f, at least one of them, and no leading zero |
| Text.HexRoundTrip | src/main.cpp:745 | reading back `String(n, HEX)` gives n |
| Text.HexLength | src/main.cpp:745 | `String(n, HEX)` has exactly k digits when 16^(k-1) <= n < 16^k |
| Text.HexLengthAtMost | src/main.cpp:745 | a number below 16^k renders in at most k hex digits |
| Text.DecString | src/main.cpp:518 | `String(n)` is decimal digits only, at least one, with no leading zero |
| Text.DecRoundTrip | src/main.cpp:518 | reading back `String(n)` gives n |
| Text.ToUpper | src/main.cpp:553 | `toUpperCase` keeps the length and upper-cases each character; the property proved about it is `Text.ToUpperKeepsHexValue` |
| Text.ToUpperKeepsHexValue | src/main.cpp:553 | upper-casing a hex string keeps it a hex string with the same value |
| Text.Padded | src/main.cpp:632-640 | the padded string has length max(\|s\|, len), ends with s, and every character before s is the pad character |
| Text.PrefixPad | src/main.cpp:632-640 | the prepend-until-long-enough loop computes exactly `Padded` |
| Text.CenterText | src/main.cpp:808-822 | text at least `width` bytes long (`String::length()` counts UTF-8 bytes) is returned unchanged; otherwise it is prefixed with floor((width - len) / 2) spaces, so it is at most `width` bytes long and centred to within one column |
| Text.ByteLength | src/main.cpp:810 | `String::length()`: between one and four bytes per character |
| Text.ByteLengthAppend | src/main.cpp:821 | the byte length of a concatenation is the sum of the byte lengths |
| Text.ByteLengthAscii | src/main.cpp:810 | the byte length equals the character count exactly when every character is ASCII |
| Capture.TickStep | src/main.cpp:1111-1116 | one loop pass changes only the countdown and `flagDone` |
| Capture.Ticks | src/main.cpp:1111-1116 | any number of silent passes changes only the countdown and `flagDone` |
| Capture.EdgeEffects | src/main.cpp:117-156 | DATA1 writes a 1 and counts only while `bitCount < 100`; DATA0 always counts (mod 2^32) and never writes; both shift bitHolder1 while the new count is below 23 and bitHolder2 otherwise, only DATA1 shifting in a 1; both set the countdown to 3000 and clear `flagDone` |
| Capture.CountdownExpires | src/main.cpp:1111-1116 | with no further edges, a countdown of c sets `flagDone` after exactly c passes and not before, changing nothing else |
| Capture.EdgeKeepsFrameBits | src/main.cpp:135-141 | one more edge on a held frame of under 100 bits appends its bit to the buffer and the count |
| Capture.EdgeShiftsHolder1 | src/main.cpp:122-125 | among the first 22 bits an edge extends bitHolder1 by its bit and leaves bitHolder2 alone |
| Capture.EdgeShiftsHolder2 | src/main.cpp:126-129 | after the 22nd bit an edge extends bitHolder2 by its bit and leaves bitHolder1 alone |
| Capture.Holder1Settled | src/main.cpp:122-129 | after the 22nd bit, bitHolder1 keeps holding the first 22 bits |
| Capture.EdgeExtendsFrame | src/main.cpp:117-156 | an edge turns the capture state holding frame w into the state holding w + [b] |
| Capture.CaptureFrame | src/main.cpp:117-156 | clocking a frame of at most 100 bits into cleared variables leaves the count, the buffer (bits then zeros) and both accumulators (first 22 bits, then the rest) holding it, with the countdown restarted |
| Capture.Pass | src/main.cpp:1111-1138 | one loop pass on the capture variables: the countdown, then a drain of a settled frame with bits, which leaves them cleared |
| Capture.Paced | src/main.cpp:117-156 | the edges of a frame with a given number of loop passes before each edge; the buffer keeps its 100 entries |
| Capture.TicksThenEdge | src/main.cpp:117-156 | loop passes that only run the countdown do not change what the next edge leaves behind, because each edge reloads the countdown and clears `flagDone` |
| Capture.QuietPasses | src/main.cpp:1111-1119 | with no bits captured, or a countdown that outlasts them, none of k passes finds a settled frame, and the passes only run the countdown |
| Capture.PacedIsFeed | src/main.cpp:1107-1139 | edges fewer than 3000 passes apart, starting from an empty capture, give the same capture state as the same edges back to back, and no pass in between finds the frame settled |
| Capture.FrameSettles | src/main.cpp:1111-1119 | a paced frame is not found settled between its edges or in the 2999 passes after its last edge, which only run the countdown |
| Capture.Int0CountsPastCapacity | src/main.cpp:117-132 | DATA0 edges go on counting past the buffer's 100 entries |
| Capture.OverlongFrameReachable | src/main.cpp:117-132 | 101 DATA0 edges after power-on, then silence, give a settled frame with bitCount 101, beyond the buffer |
| Capture.NoiseRuleNeverFires | src/main.cpp:796-806 | a buffer holding only 0s and 1s is never all 0xFF, so the noise rule never fires |
| Capture.Reader.constructor | src/main.cpp:1075 | power-on: an empty buffer, no bits, both accumulators zero, the countdown loaded with 3000 |
| Capture.Reader.Int0 | src/main.cpp:117-132 | the new capture state is `Int0Step` of the old one |
| Capture.Reader.Int1 | src/main.cpp:135-156 | the new capture state is `Int1Step` of the old one, and the buffer still holds only 0s and 1s |
| Capture.Reader.Tick | src/main.cpp:1111-1116 | the new capture state is `TickStep` of the old one; a running countdown drops by exactly one and never wraps |
| Capture.Reader.ClearDatabits | src/main.cpp:770-778 | all 100 buffer entries are 0 |
| Capture.Reader.AllBitsAreOnes | src/main.cpp:796-806 | true exactly when every buffer entry is 0xFF |
| Capture.Reader.DecodeRange | src/main.cpp:581-599 | the value is the big-endian reading of `databits[start..end)` mod 2^32; 0 for an empty range; for at most 32 bits it is exact and below 2^(end-start) |
| Capture.DecodeStep | src/main.cpp:586 | `v = (v << 1) \| databits[i]` keeps v equal to the bits read so far, mod 2^32 |
| Capture.DecodedFits | src/main.cpp:581-599 | a range of at most 32 bits is below 2^(end-start) <= 2^32, so it never wraps |
| Formats.PlanFor | src/main.cpp:656-742 | exactly the ten lengths 26, 27, 29-36 have a row; in every row chunk1Offset + bitHolderOffset = 22, chunk2Offset + bitHolderOffset = 24, chunk1Offset = n - 24 lies below the marker bit 13, chunk2Offset = n - 22, both ranges are non-empty, inside the frame and at most 24 bits wide, and every bit position used is inside a 32-bit word |
| Formats.ChunkWalkEnds | src/main.cpp:605-630 | before the bit walk nothing is rewritten; after it both chunks are packed |
| Formats.Chunk1Step | src/main.cpp:609-620 | one step of the walk sets bit i of cardChunk1 to the marker, a 0 or a bitHolder1 bit |
| Formats.Chunk2Step | src/main.cpp:621-628 | one step of the walk copies bitHolder1 bit i to cardChunk2 bit i + off2, then bitHolder2 bit i to bit i |
| Formats.Chunk1Value | src/main.cpp:605-630 | from zero, cardChunk1 = 0x2000 + 2^off1 + ((bitHolder1 >> bho) mod 2^off1) |
| Formats.Chunk2Value | src/main.cpp:605-630 | from zero, cardChunk2 = (bitHolder1 mod 2^bho) * 2^off2 + (bitHolder2 mod 2^off2): the two write ranges do not overlap |
| Formats.Chunk1Range | src/main.cpp:605-630 | for every table row, cardChunk1 lies in [0x2000, 0x4000) |
| Formats.Chunk2Range | src/main.cpp:605-630 | for every table row, cardChunk2 is below 2^24 |
| Formats.HexCardDataValue | src/main.cpp:745 | with chunk 1 of four hex digits and chunk 2 below 2^24, hexCardData has ten hex digits and denotes chunk1 * 2^24 + chunk2 |
| Formats.HexCardDataShape | src/main.cpp:744-745 | for every supported length, hexCardData is exactly ten hex digits denoting chunk1 * 2^24 + chunk2 |
| Formats.PaddedValue | src/main.cpp:632-640 | zero-padding a hex string keeps its value |
| Formats.HexValueAppend | src/main.cpp:745 | concatenated hex strings: the left part is worth 16^\|right\| times its value |
| Credentials.ToUInt16 | include/doorsim.h:32 | passing a 32-bit number as `uint16_t` keeps it modulo 2^16 |
| Credentials.ToUInt32 | src/main.cpp:985-986 | a `long` stored into an `unsigned long` keeps non-negative values and wraps negative ones to 2^32 + x |
| Credentials.StoredName | src/main.cpp:987-988 | the stored name is a prefix of the given one, at most 49 characters, NUL-free, and stops only at the end, at 49 characters or at a NUL |
| Credentials.FirstMatch | src/main.cpp:371-383 | the lowest index whose facility code and card number match, or None exactly when no entry matches |
| Credentials.Remove | src/main.cpp:1003-1007 | one entry fewer; earlier entries in place, later ones moved down by one |
| Credentials.CredentialStore.constructor | src/main.cpp:107-109 | an empty list of 100 slots |
| Credentials.CredentialStore.CheckCredential | src/main.cpp:371-383 | returns `FirstMatch` over the valid entries and changes nothing |
| Credentials.CredentialStore.AddCard | src/main.cpp:979-996 | a full list is refused and a missing parameter rejected, both changing nothing; otherwise the converted card is written at slot validCount and counted, so the contents gain it at the end |
| Credentials.CredentialStore.DeleteCard | src/main.cpp:1001-1012 | a missing or out-of-range index changes nothing; a valid index keeps earlier entries, shifts later ones down by one, leaves the old last slot as it was and decrements the count, so the contents are `Remove` of the old ones |
| Credentials.FirstMatchSplit | src/main.cpp:371-383 | searching a prefix and then the rest finds the same first match as the whole search |
| Credentials.AddedCardIsFound | src/main.cpp:979-989 | after adding a card with 16-bit numbers, looking it up finds it or an earlier entry with the same numbers |
| Credentials.WideCredentialNeverMatches | src/main.cpp:371-375 | a stored number of 65536 or more is never found, because the arguments are 16-bit |
| Credentials.TruncatedLookupAliases | src/main.cpp:485 | decoded numbers that agree in their low 16 bits are looked up alike |
| Credentials.DeleteAfterMatch | src/main.cpp:1003-1007 | deleting after the first match leaves the lookup unchanged |
| Credentials.DeleteBeforeMatch | src/main.cpp:1003-1007 | deleting before the first match moves it down by one |
| Credentials.DeleteWithoutMatch | src/main.cpp:1003-1007 | deleting from a list without a match leaves none |
| Credentials.DeleteTheMatch | src/main.cpp:1003-1007 | deleting the first match makes the lookup find the next match after it, if any |
| Credentials.DeleteShiftsLookup | src/main.cpp:1003-1007 | every lookup survives a delete up to renumbering, in all four cases |
| ReadLog.CardLog.constructor | src/main.cpp:112-114 | an empty log of 100 slots |
| ReadLog.CardLog.Store | src/main.cpp:563-573 | slot cardDataIndex is written and the index advanced only while it is below 100; earlier entries are untouched; the entries are `Logged` of the old ones |
| ReadLog.LogKeepsOldest | src/main.cpp:563-573 | from an empty log, after any number of reads the log holds exactly the first 100, in order |
| DoorSim.Simulator.constructor | src/main.cpp:1075 | power-on: the capture state is at power-on, the credential list and the log are empty |
| DoorSim.Simulator.SetCardChunkBits | src/main.cpp:605-630 | the 20-step walk from bit 19 down to 0 leaves exactly `PackChunk1` and `PackChunk2` in the chunks and changes no other card field |
| DoorSim.Simulator.ProcessHIDCard | src/main.cpp:642-747 | the card fields become `HIDUpdate` of the old ones: unchanged for an unsupported length, otherwise both decodes, both chunks and hexCardData |
| DoorSim.Simulator.ProcessCardData | src/main.cpp:749-768 | rawCardData spells the captured bits and frames of 26-96 bits are decoded (`ProcessUpdate`); `inBounds` is false exactly when bitCount exceeds the buffer |
| DoorSim.Simulator.PrintCardData | src/main.cpp:481-573 | status and details as `PrintUpdate` says, and the log is offered the resulting record |
| DoorSim.Simulator.CleanupCardData | src/main.cpp:781-794 | the card fields are at their reset values; bitCount and both accumulators are zero, and nothing else in the capture state changes |
| DoorSim.Simulator.Loop | src/main.cpp:1107-1139 | one pass runs the countdown; a settled frame with bits is drained, leaving the capture state cleared (the new capture state is `Capture.Pass` of the old one); the log gains `FrameRecord` exactly when the frame is settled and passes the print gate; `overrun` reports a drained frame longer than the buffer |
| DoorSim.RawStringSpellsBits | src/main.cpp:754-756 | the raw string has one '0' or '1' per captured bit, in order |
| DoorSim.HoldersOfFrame | src/main.cpp:117-156 | after a frame of 22-54 bits, bitHolder1 holds the big-endian value of its first 22 bits and bitHolder2 that of the rest |
| DoorSim.FrameChunks | src/main.cpp:605-630 | for a supported frame, cardChunk1 = 0x2000 + 2^(n-24) + the first n-24 bits and cardChunk2 = the last 24 bits |
| DoorSim.FrameChunk1 | src/main.cpp:609-620 | cardChunk1 of a frame is the marker, the bit above the first off1 frame bits, and those bits |
| DoorSim.FrameChunk2 | src/main.cpp:621-628 | cardChunk2 of a frame is its last 24 bits |
| DoorSim.HexArithmetic | src/main.cpp:745 | those chunks put together as chunk1 * 2^24 + chunk2 give 2^37 + 2^n + the frame's value |
| DoorSim.FrameHex | src/main.cpp:744-745 | for a supported frame, hexCardData is ten hex digits denoting 2^37 + 2^n + the frame read as one big-endian number |
| DoorSim.SettledFrame | src/main.cpp:1111-1119 | a frame clocked into cleared variables and followed by 3000 silent passes is settled and still held |
| DoorSim.DecodedRange | src/main.cpp:581-599 | a range of a held frame of at most 24 bits decodes to its exact big-endian value |
| DoorSim.DecodedFrame | src/main.cpp:656-745 | for a held frame of supported length, processHIDCard yields the big-endian values of the row's ranges and the ten-digit hex of 2^37 + 2^n + the frame |
| DoorSim.ProcessedFrame | src/main.cpp:749-768 | processCardData on such a frame also spells its bits in the raw string |
| DoorSim.PrintKeepsDecode | src/main.cpp:483-559 | printCardData keeps the numbers and the raw string, and at most upper-cases the hex, keeping its value |
| DoorSim.FrameIsLogged | src/main.cpp:1107-1139 | end to end, with loop passes between the edges: a supported frame whose edges come after a drain, fewer than 3000 passes apart, is not drained by any pass between its edges or by the 2999 silent passes after the last one; the 3000th pass finds it settled and past the print gate and logs it with its length, its format's facility code and card number, a raw string spelling its bits, and a ten-digit hex denoting 2^37 + 2^n + its value |
| DoorSim.HexIdentifiesFrame | src/main.cpp:745 | two supported frames with the same hex value are the same frame |
| DoorSim.DistinctFramesDistinctHex | src/main.cpp:745 | two different supported frames, each read with loop passes between its edges, are logged with hex strings of different value |
| DoorSim.UnsupportedFrameRecord | src/main.cpp:1128 | the print gate admits exactly two lengths the table rejects, 28 and 96; they are logged with facility code 0, card number 0 and empty hex; in CTF mode such a read is authorized exactly when a (0, 0) credential exists |
| DoorSim.CTFVerdict | src/main.cpp:483-519 | in CTF mode the status is "Authorized" with the first match's name exactly when some credential matches the 16-bit-truncated numbers, otherwise "Unauthorized" with both numbers in decimal; the hex is untouched |

## Left out

- LCD, LED, speaker and relay output (`ledOnValid`, `speakerOnValid`, `speakerOnFailure`, `lcdInvalidCredentials`, `displaySetupMassage`, `printWelcomeMessage`, the lcd calls in `printCardData`): hardware output with `delay()` timing.
- `updateDisplay`, `lastCardTime` and `displayingCard`: wall-clock display timing based on `millis()`.
- Serial logging and `printAllCardData`: output only.
- Settings and credential persistence (src/main.cpp:158-368): it goes through the LittleFS file store and the ArduinoJson library, neither of which is part of this model. The credential loader takes `validCount` from the file without clamping it (src/main.cpp:335-339), so a file with more than 100 entries would break the `0 <= validCount <= 100` invariant that every `CredentialStore` method keeps.
- Web routing, HTTP status codes and `String::toInt` parsing: the handlers' integers are parameters, and the outcome is an enum (Added, MissingParameters, StoreFull; Deleted, MissingIndex, InvalidIndex).
- The interrupt-versus-main-loop race: the handlers are atomic methods, called one after another between loop passes.
- data/script.js: browser UI.
- `MODE` string comparison: the mode is an enum.
- Changing `MODE` through `/saveSettings` (src/main.cpp:960): web routing; the mode is fixed for a run of the model.
- Text.CenterText: the byte length is that of the UTF-8 encoding of the string's Unicode scalar values; the LCD's rendering of non-ASCII bytes is not modelled.
- Credentials.StoredName: counts the name's length in characters, not in UTF-8 bytes as `strncpy` on `char name[50]` does.
- DoorSim.Simulator.ProcessCardData: the firmware reads `databits[i]` for every `i < bitCount`, beyond the 100-entry buffer when more DATA0 edges arrived (`Capture.OverlongFrameReachable`). The model reads only the 100 entries that exist and reports the overrun through `inBounds`. Such frames never reach the log, because the print gate stops at 96 bits.
- Capture.Reader.DecodeRange: requires `end <= 100`; every table row stays within 36 bits.
- `lastWrittenDatabits` and the card-writing side of the firmware: not part of the reader pipeline.
