# Power monitor: a verified model

A Dafny model of the stateful parts of the power monitor: the ESP32 firmware's delta-compressed log and its publisher,
the vendored nanopb field descriptors, the switch controller, the battery accounts, the profile registry and the update
client, and the backend's rate limiter, alert engine and refresh tokens.

`dafny verify dfyconfig.toml` checks everything. There is one module per component:

| module | source | what it is about |
|---|---|---|
| `LogCodec`, `LogRing` | `src/data_logger.cpp` | delta encoding with 16- and 32-bit wrap-around, packed entries, the 16 KB byte ring |
| `Base64`, `LogPublisher` | `src/connectivity_manager.cpp` | base64, batches with retry, the overflow file on the card |
| `FieldInfo`, `FieldIter`, `Utf8` | `lib/nanopb/pb.h`, `lib/nanopb/pb_common.c` | packed descriptors, the cyclic search, the UTF-8 recogniser |
| `SwitchController` | `src/switch_controller.cpp` | the timed state machine of a switch under ticks, commands, pulses and auto mode |
| `CoulombCounter`, `CycleCounter` | `src/coulomb_counter.cpp`, `src/cycle_counter.cpp` | two accounts of one current, cycles, state of health |
| `RateLimiter`, `AlertEngine`, `RefreshTokens` | `backend/internal/` | token bucket, consecutive-match alerts, token rotation |
| `ProfileRegistry` | `src/battery_profile.cpp` | the sparse profile table and its flash image |
| `OtaClient` | `src/ota_client.cpp` | download, verify, boot |

`Words` holds the integer widths and casts, `Seqs` and `Options` the shared helpers.

Every component that updates state in place is a class whose methods are proved equal to a specification on values
(`Put`, `After`, `Ticked`, `Looped`, ...); the properties of whole runs are lemmas about that specification. Whatever
comes from outside (the clock, the broker, the card, flash, the database, the server, sensor readings) is a parameter
with an arbitrary value, so every lemma about runs covers every pattern of failures it does not exclude by name.

## Where the code and its promises part

The model follows the code. These promises do not hold as written; each has a lemma with the exact condition.

- `lib/nanopb/pb.h:786-799`: the static assertions on field information let through fields that do not survive packing.
  `RoundTripExactly` gives the condition: array_size 1 in the one-word format, size_offset at most 127 in the four- and
  eight-word formats.
- `src/connectivity_manager.cpp:837-859`: the overflow file is to be deleted only once fully drained, but a read that
  fails looks like the end of the file. `DeletedExactly`: a tick that deletes the file has published all of it if and
  only if it could read all of it.
- `src/data_logger.cpp:334-346`: a spill that finds 1 MiB or more in the overflow file removes it, published or not.
  `SpillKeepsExactly`: the file survives a sample if and only if nothing is spilled, it is below that limit, or the card
  does not let it be removed.
- `src/data_logger.cpp:354-357`: an append that the card takes only in part counts as written. `SpillReachesExactly` says
  when a flushed batch reaches the card whole, and `TornExactly` that what is appended after a part can be read if and
  only if the part ends between two entries.
- `src/data_logger.cpp:513-531`: after the ring was emptied to make room, what follows can start with a delta entry.
  `SuffixDecodesExactly`: a reader recovers the rest exactly if it starts at a base entry.
- `src/battery_profile.cpp:64-65`: the outcome of writing the version key is ignored, so a set can report success and be
  gone after a reboot. `SavedExactly` and `RebootAfter` say when.
- `src/ota_client.cpp:318-319`: the percentage is cut to a byte before it is capped, so an update of one byte that
  receives three shows 44. `ProgressExactly`: it is the true one in every run if and only if the update has at least 656
  bytes.
- `src/ota_client.cpp:431`: a trigger zeroes the poll timer and starts its check at once, so on a device that has been
  up for longer than the interval the timer polls again right after that check. `PollsTwice` is such a run;
  `PollsWhenDue` says when the timer polls, in true time.
- `src/switch_controller.cpp:660`: the signed comparison ends a pulse at a tick at which more than 2^31 ms of it remain.
  `PulseGoesOn` gives the exact condition; the callers in the repository ask for 1 and 3 seconds.
- `src/cycle_counter.cpp:9-22` and `:192-195`: a leg of at most 5 points is to be included in the next one, but line 196
  restarts the session either way. In the header's own example, 90% to 85% to 40%, 0.45 cycles are counted instead of
  0.5 (`DipCounted`). `AbsorbedExactly` (and `MeasuresExactly`, whatever came before) says when a flip measures what is
  promised; `CountedAsPromised` gives a class of runs that are counted as promised.

Some comments and documents are merely out of date:

- `include/ota_client.h:18`: the failed state is never entered (`Safe`); a failed attempt goes back to idle.
- `src/coulomb_counter.cpp:18-22` says that initial_soc_pct is not applied; `src/cycle_counter.cpp:78-82` applies it, and
  so does the model.
- `docs/API.md:1031,1048` describes a 32 KB ring and 25-byte delta entries; the code has 16384 bytes
  (`src/data_logger.cpp:27`) and 27 bytes (`include/data_logger.h:28-38`).

## What is taken for granted

- Packed structs are little endian, as on the ESP32; `size_t` and `unsigned long` have 32 bits there.
- `pb_size_t` has 16 bits (no `PB_FIELD_32BIT`), field tables are sorted by tag, have fewer than 65535 fields and describe
  their own submessages, as the generator emits them; the last descriptor starts below word 65536.
- Each locked region, statement or transaction is one step. `float` and `float64` are `real`.
- Switch configuration stays as it is during a run, and the clock of a run does not go back.
- An NVS, card or flash write does what it reports; `esp_ota_begin` returns a non-zero handle when it succeeds.
- Alert rules have distinct ids without a colon (they are UUIDs) and stay as they are; database writes of the alert engine
  succeed. A new token family's id is not in use.
- The OTA partition has a 32-bit size, and a write past its end fails.
- SHA-256 is an arbitrary function from bytes to text.

## Model

| member | source | states |
|---|---|---|
| `LogCodec.DecodeOne` | src/data_logger.cpp:426-459 | The decoder (a base entry resets, a delta entry adds mod 2^16 and mod 2^32) takes any encoder state and its next entry to exactly the sample that was encoded |
| `LogCodec.RoundTrip` | src/data_logger.cpp:426-459 | Decoding the whole appended history gives back every quantised sample and 32-bit time, from any encoder state, through `int16_t` wraps before the range check and through a `millis()` wrap |
| `LogCodec.DeltaExactly` | src/data_logger.cpp:432-456 | In a run from boot, entry k is a delta if and only if it has a predecessor, the 32-bit gap is at most 60000 ms and no wrapped 16-bit change is beyond the limit; the stored gap is that 32-bit gap |
| `LogCodec.SuffixDecodesExactly` | src/data_logger.cpp:513-531 | A reader that joins at entry k (what a drop leaves behind) recovers the rest exactly if and only if that entry is a base entry |
| `LogCodec.EncodeAllSplit` | src/data_logger.cpp:426-459 | Encoding a run is encoding its first part and then the rest from the state reached: the encoder depends on nothing but the last sample |
| `LogCodec.ReadEntryBack` | include/data_logger.h:20-38 | The packed little-endian bytes of an entry, followed by anything, are read back as that entry, at 29 or 27 bytes by the type byte |
| `LogCodec.ParseBack` | src/data_logger.cpp:94-107 | Packed entries laid end to end can be told apart again: reading entry by entry, by the type byte alone, returns the same entries |
| `LogCodec.SerialiseSize` | include/data_logger.h:20-38 | n packed entries take between 27 n and 29 n bytes |
| `LogCodec.BaseLayout` | include/data_logger.h:20-26 | A base entry is 29 bytes: 0xB0, the 32-bit time and the twelve 16-bit values, each with its low byte first |
| `LogCodec.DeltaLayout` | include/data_logger.h:28-38 | A delta entry is 27 bytes: 0xD0, the 16-bit gap and the twelve 16-bit changes, each with its low byte first |
| `LogRing.RunConserves` | src/data_logger.cpp:479-533 | For every interleaving of logging and batch pops: everything taken out (popped, flushed to the card or discarded), in order, followed by what is in the ring, is the whole appended history |
| `LogRing.RunDecodes` | src/data_logger.cpp:426-533 | For every interleaving, decoding what was taken out followed by what is in the ring yields exactly the samples logged |
| `LogRing.NewestStored` | src/data_logger.cpp:521-533 | After every run the ring has a byte to spare, and if the last operation was a log the newest entry is the last one in the ring: the retry after emptying never fails |
| `LogRing.PutFits` | src/data_logger.cpp:479-531 | One entry of any kind, put into a log of any size, ends in a ring that is not full |
| `LogRing.PutExactly` | src/data_logger.cpp:479-531 | For every log and entry: the entry goes behind those in the ring, which all stay, if and only if the bytes in the ring, its own and one more are fewer than 16384; otherwise it is alone in the ring and the old entries have left, all at once, for the card or nowhere |
| `LogRing.OnlyFullRingsLeave` | src/data_logger.cpp:479-531 | For every interleaving of logging and batch pops: entries that were flushed or dropped were a ring of at least 16384 - 30 bytes |
| `LogRing.BatchIsLongest` | src/data_logger.cpp:94-107 | A batch is the longest prefix of whole entries that fits: k entries fit if and only if k is at most the batch count |
| `LogRing.TornExactly` | src/data_logger.cpp:354-355 | After packed entries cut short anywhere, everything appended later can be read, whatever it is, if and only if the cut falls between two entries |
| `LogRing.PopConserves` | src/data_logger.cpp:558-574 | A batch pop moves entries from the ring to the taken part without changing their concatenation |
| `LogRing.PutConserves` | src/data_logger.cpp:479-531 | Storing an entry appends exactly that entry to the history, in the ordinary, the flush and the drop path alike |
| `LogRing.StretchStored` | src/data_logger.cpp:482-488 | The two copies on either side of the wrap extend the circular stretch from tail to head by exactly the bytes stored |
| `LogRing.StretchDrop` | src/data_logger.cpp:100-103 | Moving tail by one removes exactly the first byte of the stretch |
| `LogRing.Advanced` | src/data_logger.cpp:484-487 | The remainder form of the head update equals `next_pos` |
| `LogRing.DataLogger.constructor` | src/data_logger.cpp:366-371 | A new logger is valid and holds no entries |
| `LogRing.DataLogger.Store` | src/data_logger.cpp:482-488 | Head moves by the number of bytes and the buffer is the old one with the bytes stored circularly |
| `LogRing.DataLogger.StashRing` | src/data_logger.cpp:502-510 | The scratch buffer starts with the ring's bytes in order, wrapped or not |
| `LogRing.DataLogger.Write` | src/data_logger.cpp:479-533 | The bytes of the ring refine the entry log: after the store, the circular bytes are the serialisation of the entries `Put` leaves, and what was flushed is the serialisation of the old ones |
| `LogRing.DataLogger.LogSample` | src/data_logger.cpp:388-533 | One call takes the logger (codec state, bytes, count) from one valid state to the one that appending the sample calls for |
| `LogRing.DataLogger.PopEntry` | src/data_logger.cpp:97-104 | The byte loop copies exactly the oldest entry's bytes and leaves the ring with the rest |
| `LogRing.DataLogger.PopRing` | src/data_logger.cpp:94-107 | The output is the serialisation of a run of oldest entries, and it stops only when the next one does not fit or none is left |
| `LogRing.DataLogger.PopBatch` | src/data_logger.cpp:558-574 | A pop returns the bytes of the longest whole-entry batch that fits and leaves the ring with the rest |
| `Base64.DecodeEncoded` | src/connectivity_manager.cpp:773-789 | Decoding as section 4 of RFC 4648 defines it gives back every byte string |
| `Base64.EncodedShape` | src/connectivity_manager.cpp:773-789 | 4 * ceil(n / 3) characters, all of the standard alphabet but the last 0, 1 or 2, which are `=` |
| `Base64.EncodedBits` | src/connectivity_manager.cpp:781-784 | Each character stands for its own six bits of the input |
| `Base64.SextetsOfTriple` | src/connectivity_manager.cpp:780-784 | The four six-bit fields of the 24-bit word are the standard's sextets of its three octets |
| `Base64.GroupIsNumber` | src/connectivity_manager.cpp:780-784 | Three octets in base 256 and their four characters in base 64 are the same number, most significant first |
| `Base64.AlphabetCodes` | src/connectivity_manager.cpp:774 | The alphabet, by character code: A to Z, a to z, 0 to 9, plus and slash |
| `Base64.EmitGroup` | src/connectivity_manager.cpp:777-784 | One turn of the loop writes the four characters of one group and touches nothing before them |
| `Base64.Base64Encode` | src/connectivity_manager.cpp:773-789 | The output array holds the encoding of the whole input followed by a NUL, within bounds for every input length |
| `LogPublisher.PublishedOnce` | src/connectivity_manager.cpp:797-835 | Whatever the broker answers, over any run of logging and publishing: what it has taken from the ring, followed by the waiting batch, is everything popped, once and in pop order |
| `LogPublisher.NodeConserves` | src/connectivity_manager.cpp:797-860 | Over any run of logging and publishing, the removed entries followed by the ring are the encoding of all samples logged |
| `LogPublisher.SubscribersGetEveryEntry` | src/connectivity_manager.cpp:797-835 | End to end, over any run: base64 text received from the ring, then the waiting batch, then the ring, read as exactly the entries popped and those still stored; when no entry left another way they decode to exactly the samples logged, in order |
| `LogPublisher.TickPublishes` | src/connectivity_manager.cpp:797-835 | From any state, by the broker's answers: a tick whose first call is refused with a batch waiting changes nothing; otherwise subscribers have exactly the waiting batch, the longest run of whole entries within 512 bytes has left the ring, and subscribers have it too or it is the waiting batch |
| `LogPublisher.EverythingGoesOut` | src/connectivity_manager.cpp:797-835 | From any state a run can reach: while the broker takes everything, no batch is waiting after the first tick, and each tick takes an entry at least off the ring until it is empty |
| `LogPublisher.SampleLocated` | src/data_logger.cpp:479-541 | Every sample of any run is located: in the ring; or, at the place given, with the broker or in the waiting batch; or, while the card fails nothing, in a deleted (and then received) file or on the card; or it left with a named discard |
| `LogPublisher.FlushedIsKept` | src/data_logger.cpp:325-362 | From any file left on the card at boot, over any run in which the card fails nothing: the files deleted, in order, followed by the one on the card, are byte for byte what was there and what was flushed, and subscribers received each deleted file whole, one after the other |
| `LogPublisher.SpillKeepsExactly` | src/data_logger.cpp:334-346 | In every reachable state, the overflow file survives a sample, as the start of the new file, if and only if nothing is spilled, the file is below 1 MiB, or the cap check cannot open or remove it |
| `LogPublisher.SpillReachesExactly` | src/data_logger.cpp:348-361 | A flushed batch is on the card whole, after what was kept there, if and only if the file opens and takes all of it |
| `LogPublisher.TickKeepsExactly` | src/connectivity_manager.cpp:837-859 | The file survives a tick if and only if a batch is still waiting, the file does not open or cannot be removed, or the broker refuses one of the publish calls that carry its chunks |
| `LogPublisher.StopsAtRefusal` | src/connectivity_manager.cpp:841-853 | A drain gets less than the file across if and only if the broker refuses one of the ceil(n / 512) calls for it |
| `LogPublisher.CardDeletedWhenRead` | src/connectivity_manager.cpp:837-859 | A tick publishes the first k bytes of the overflow file in order, after the ring's batches are through; it deletes the file, if the card lets it, exactly when k is everything it could read, and otherwise leaves it whole |
| `LogPublisher.DeletedExactly` | src/connectivity_manager.cpp:841-855 | A tick that deletes the file has published all of it if and only if it could read all of it: a failing read is taken for the end of the file |
| `LogPublisher.AcceptedDrain` | src/connectivity_manager.cpp:837-859 | With a broker that takes everything and a card that fails nothing, one tick publishes the whole file and deletes it |
| `LogPublisher.Publisher.constructor` | src/connectivity_manager.cpp:804-807 | A new publisher has nothing waiting, a fresh logger and whatever file is on the card |
| `LogPublisher.Publisher.LogSample` | src/data_logger.cpp:534-541 | Logging with its deferred card write: the node becomes what the sample, the spill and the card's answer call for |
| `LogPublisher.Publisher.Send` | src/connectivity_manager.cpp:824-825 | A payload of up to 512 bytes always fits the 700-byte text buffer, and is taken, encoded, exactly if the broker accepts it |
| `LogPublisher.Publisher.DrainFile` | src/connectivity_manager.cpp:840-859 | The drain loop computes the recursive specification of a drain, whatever mix of answers the broker gives |
| `LogPublisher.Publisher.RetryPending` | src/connectivity_manager.cpp:809-816 | The waiting batch is offered first and dropped only when accepted |
| `LogPublisher.Publisher.SendBatch` | src/connectivity_manager.cpp:822-835 | A refused batch becomes the waiting one, byte for byte |
| `LogPublisher.Publisher.PublishTick` | src/connectivity_manager.cpp:809-859 | With the broker connected: waiting batch, then one batch of the ring, then the file, each only if the one before is through |
| `LogPublisher.Publisher.PublishLogBatch` | src/connectivity_manager.cpp:797-860 | One tick takes ring, waiting batch, file and accepted messages to the state the specification gives |
| `FieldInfo.RoundTripExactly` | lib/nanopb/pb.h:761-799 | For every width: a field that passes its static assertion is unpacked unchanged if and only if array_size is 1 (one word), or size_offset is at most 127 (four and eight words) |
| `FieldInfo.UnpackAt` | lib/nanopb/pb_common.c:17-72 | A packed descriptor found anywhere in an array of words is read with its own width and field values |
| `FieldInfo.UnpackSlice` | lib/nanopb/pb_common.c:17-72 | Unpacking reads the descriptor's own words only |
| `FieldInfo.Back1` | lib/nanopb/pb.h:761-763 | One word: the packed descriptor reads back with every value intact, array size 1 |
| `FieldInfo.Back2` | lib/nanopb/pb.h:765-767 | Two words: the packed descriptor reads back with every value intact |
| `FieldInfo.Back4` | lib/nanopb/pb.h:769-772 | Four words: the packed descriptor reads back, size offset reduced to seven bits |
| `FieldInfo.Back8` | lib/nanopb/pb.h:774-777 | Eight words: the packed descriptor reads back, size offset reduced to seven bits |
| `FieldInfo.Layout1` | lib/nanopb/pb.h:741 | One word: a field within the documented ranges passes its assertion, and is packed as a sum with each part at its documented bit |
| `FieldInfo.Layout2` | lib/nanopb/pb.h:743-744 | Two words likewise, the tag split into six and four bits |
| `FieldInfo.Layout4` | lib/nanopb/pb.h:746-749 | Four words likewise, the tag split into six bits and the rest |
| `FieldInfo.Layout8` | lib/nanopb/pb.h:751-758 | Eight words likewise |
| `FieldInfo.StoredExactly` | lib/nanopb/pb.h:787-799 | What is kept of a field is the field itself exactly under the condition of RoundTripExactly |
| `FieldInfo.PackedAt` | lib/nanopb/pb_common.c:142-150 | In a table of mixed widths, the k-th descriptor stands at the sum of the widths before it |
| `FieldInfo.Enumerates` | lib/nanopb/pb_common.c:122-154 | Walking the words of a mixed-width table from descriptor to descriptor enumerates the original field list |
| `FieldInfo.TableWords` | lib/nanopb/pb_common.c:142-150 | Every word of every descriptor is found at its prefix-sum position |
| `FieldIter.FirstWordFacts` | lib/nanopb/pb_common.c:136-144 | In all four formats the first word alone gives the type and the six low tag bits of the full field |
| `FieldIter.IndexBounds` | lib/nanopb/pb_common.c:146-152 | None of the three 16-bit indexes wraps at any field, if and only if the last descriptor starts below word 65536 |
| `FieldIter.SubmessageBound` | lib/nanopb/pb_common.c:110-113 | The submessage index of a field never exceeds those of later fields, so it stays inside the submessage table |
| `FieldIter.TypeBits` | lib/nanopb/pb_common.c:88-108 | For a type composed of a data type, a repetition rule and an allocation kind: required, submessage, extension and fixed count are read off exactly their own part |
| `FieldIter.Located` | lib/nanopb/pb_common.c:74-117 | For a described field, at any width: pField is data_offset bytes behind the message, pSize size_offset bytes before that, or the descriptor's array size exactly for a repeated static or pointer field with no size offset; a null message has neither |
| `FieldIter.MissedAfter` | lib/nanopb/pb_common.c:210-216 | With sorted tags, a smaller tag cannot be at or after the start, so restarting at the front skips no hit |
| `FieldIter.NoneBeyond` | lib/nanopb/pb_common.c:201-204 | With sorted tags, no field has a tag above largest_tag |
| `FieldIter.MissedNext` | lib/nanopb/pb_common.c:218-238 | One step of the cyclic search keeps "nothing missed so far", and coming back to the start proves the tag absent |
| `FieldIter.ReadDescriptor` | lib/nanopb/pb_common.c:17-72 | Reading field k's words yields the stored field, for any width |
| `FieldIter.ReadFirstWord` | lib/nanopb/pb_common.c:142-144 | The first word of field k yields its length in words, its type and its low tag bits |
| `FieldIter.Iterator.Load` | lib/nanopb/pb_common.c:8-120 | True exactly when the index is inside; then all loaded values are those of that field, with the submessage of the prefix-sum index |
| `FieldIter.Iterator.Advance` | lib/nanopb/pb_common.c:122-154 | From field k the indexes go to those of field k + 1, all three equal to prefix sums, or around to field 0 |
| `FieldIter.Iterator.Begin` | lib/nanopb/pb_common.c:156-164 | Stands at field 0 with its values, false exactly for an empty message |
| `FieldIter.Iterator.Next` | lib/nanopb/pb_common.c:188-193 | Stands at the following field with its values; false exactly when it wrapped around |
| `FieldIter.Iterator.Find` | lib/nanopb/pb_common.c:195-244 | Terminates from any field; true exactly when a field with the tag is there that is not an extension (or is the one it stands on); ends in the state of begin plus k nexts at that field, or where it started |
| `FieldIter.Iterator.SearchStep` | lib/nanopb/pb_common.c:218-238 | One turn of the loop finds a hit, or closes the circle with no hit, or has missed nothing so far |
| `FieldIter.Iterator.SearchLoop` | lib/nanopb/pb_common.c:218-242 | The loop ends on a hit, or at the start with no hit anywhere |
| `Utf8.ValidateUtf8` | lib/nanopb/pb_common.c:334-385 | True exactly when the text before the terminator is the encoding of some sequence of Unicode scalar values other than U+0000, U+FFFE and U+FFFF; never reads past the terminator |
| `Utf8.TakeCharacter` | lib/nanopb/pb_common.c:337-382 | One turn of the loop takes exactly the length of the accepted character at the front of the rest, or refuses, reading no further than the terminator |
| `Utf8.OneCharacter` | lib/nanopb/pb_common.c:337-382 | A non-empty string is such an encoding if and only if the validator takes a character off it and the rest is one |
| `Utf8.Complete` | lib/nanopb/pb_common.c:339-377 | The encoding of every permitted character is accepted whole, whatever follows it |
| `Utf8.TakenIsCharacter` | lib/nanopb/pb_common.c:339-377 | Whatever the validator accepts as one character is the encoding of a permitted one |
| `Utf8.Sound2` | lib/nanopb/pb_common.c:344-352 | Every accepted two-byte form is the encoding of a permitted character (overlong forms are out) |
| `Utf8.Sound3` | lib/nanopb/pb_common.c:353-365 | Every accepted three-byte form is the encoding of a permitted character (overlong forms, surrogates, U+FFFE and U+FFFF are out) |
| `Utf8.Sound4` | lib/nanopb/pb_common.c:366-377 | Every accepted four-byte form is the encoding of a permitted character (overlong forms and values above U+10FFFF are out) |
| `SwitchController.Combine` | src/switch_controller.cpp:516-531 | The counting loops decide: AND, at least one condition active and all active ones hold; OR, at least max(1, minimum) hold |
| `SwitchController.CountCompare` | src/switch_controller.cpp:522-527 | Counting satisfied among active conditions reaches the active count exactly when every active one is satisfied |
| `SwitchController.AlwaysCoherent` | src/switch_controller.cpp:533-666 | After any interleaving of ticks, manual sets, pulses and auto toggles, the state flag, its mirror, the last pin level and the last published value agree |
| `SwitchController.PresentStretch` | src/switch_controller.cpp:535-557 | In every reachable state there is an evaluated tick (or boot) since which every evaluated tick has agreed, and `condition_start_ms` is its time |
| `SwitchController.EnergisedAfterStretch` | src/switch_controller.cpp:535-552 | The rule engine energises a switch only at the end of a stretch of at least trip_delay_ms of true time in which the condition held at every evaluated tick, across the 32-bit wrap |
| `SwitchController.ReleasedAfterStretch` | src/switch_controller.cpp:553-569 | It de-energises a switch only after the mirror image of reset_delay_ms, counted from boot when the condition never held |
| `SwitchController.RuleDecision` | src/switch_controller.cpp:535-570 | For gaps below 2^31 ms the decision of an evaluated tick, in true time: both directions |
| `SwitchController.EnergisedExactly` | src/switch_controller.cpp:535-552 | Over runs: at an evaluated tick less than 2^31 ms after the present stretch began, an off switch is energised if and only if the condition holds and the stretch is one of it holding for at least trip_delay_ms |
| `SwitchController.ReleasedExactly` | src/switch_controller.cpp:553-569 | Likewise an on switch is released if and only if the condition fails and the stretch is one of it failing (or none since boot) for at least reset_delay_ms |
| `SwitchController.PulseGoesOn` | src/switch_controller.cpp:657-666 | A pulse looked at before its end goes on if and only if at most 2^31 ms remain |
| `SwitchController.PulseEnds` | src/switch_controller.cpp:657-666 | The first tick at or after the end, less than 2^31 ms late, ends the pulse and drops the switch, with auto on or off |
| `SwitchController.PulseOwnsSwitch` | src/switch_controller.cpp:473-475 | Until its end a pulse of at most 2^31 ms stays in flight through any other events, and no tick changes the switch |
| `SwitchController.CommandTakes` | src/switch_controller.cpp:622-632 | Over runs: after a command, flag, mirror, pin and published value of a switch that can be loaded are what was commanded, whatever they were, and pulse, start and condition are as before |
| `SwitchController.PulseTakes` | src/switch_controller.cpp:634-647 | Over runs: a pulse puts the switch on, to end at the 32-bit sum, and touches nothing else |
| `SwitchController.PulseKeepsOn` | src/switch_controller.cpp:634-666 | Over runs: a pulse of at most 2^31 ms puts the switch on, and it stays on up to its end through ticks, commands to be on and turning auto on |
| `SwitchController.AutoTakes` | src/switch_controller.cpp:587-616 | Over runs: turning auto on changes no switch; turning it off exactly those that are on under an enabled rule, which go off with nothing else changed |
| `SwitchController.EvaluatedExactly` | src/switch_controller.cpp:462-480 | A tick is evaluated if and only if auto is on, switch and rule can be loaded and are enabled, the channel is there and no pulse goes on |
| `SwitchController.ConditionTrips` | src/switch_controller.cpp:533-552 | A condition that begins to hold and keeps holding has the switch on at the first tick that comes trip_delay_ms later |
| `SwitchController.ConditionResets` | src/switch_controller.cpp:553-570 | A condition that begins to fail and keeps failing has it off at the first tick that comes reset_delay_ms later |
| `SwitchController.AutoOffStaysOff` | src/switch_controller.cpp:587-616 | Once auto is turned off, a switch with an enabled rule is off, and stays off until a manual set, a pulse or auto on |
| `SwitchController.Controller.constructor` | src/switch_controller.cpp:405-456 | Every switch starts off, and the first four are published as off |
| `SwitchController.Controller.SetSwitch` | src/switch_controller.cpp:622-632 | Exactly the named switch changes, to the commanded state; nothing for an index out of range |
| `SwitchController.Controller.PulseSwitch` | src/switch_controller.cpp:634-647 | Exactly the named switch is energised, with a pulse ending at the 32-bit sum |
| `SwitchController.Controller.PulseTick` | src/switch_controller.cpp:657-666 | Every switch whose pulse is over is released, no other changes |
| `SwitchController.Controller.Evaluate` | src/switch_controller.cpp:462-585 | Pulses first, then the rule for every switch it applies to, with conditions combined as Combine says; each switch depends on its own state only |
| `SwitchController.Controller.SetAuto` | src/switch_controller.cpp:587-616 | Turning auto off releases every energised switch under an enabled rule, and changes no other |
| `CoulombCounter.Counter.Update` | src/coulomb_counter.cpp:33-40 | Each channel there is gains its signed charge of the tick, the others nothing |
| `CoulombCounter.Counter.Reset` | src/coulomb_counter.cpp:54-58 | Exactly the named channel goes to zero |
| `CoulombCounter.ChargeExactly` | src/coulomb_counter.cpp:39 | 3600 ampere-seconds are 1000 mAh |
| `CycleCounter.TracksLegs` | src/cycle_counter.cpp:156-198 | In every reachable state, direction, session start, cycles and sample count agree with the legs read off the currents and the SoC trace |
| `CycleCounter.TickCharges` | src/cycle_counter.cpp:145-154 | At every tick of a run: current times hours goes to the total of its direction, above 0.02 A and below -0.02 A, and to neither in between |
| `CycleCounter.SocExactly` | src/cycle_counter.cpp:69-93 | At every tick of a run: the charge is the installed one (100 when none within 0..100 is stored) plus the net charge as a percentage of the capacity, kept within 0..100; with a capacity of at most 0.001 Ah it stays |
| `CycleCounter.FlipCounts` | src/cycle_counter.cpp:166-198 | At every tick of a run: a current against the last direction closes the leg; above 5 points it adds span/100 cycles, the first gives the state of health, each later one three tenths of it, and the leg's Ah are kept; no other tick changes any of these |
| `CycleCounter.CyclesAreLegs` | src/cycle_counter.cpp:167-197 | 100 times the cycles gained is the sum of the spans of exactly the closed legs above 5 points, hence at most the total variation of the SoC trace |
| `CycleCounter.LegsWithinVariation` | src/cycle_counter.cpp:167-197 | Counted legs plus what the open leg spans never exceed the total variation |
| `CycleCounter.MeasuresExactly` | src/cycle_counter.cpp:167-197 | In any run, a flip measures the span the header promises if and only if the counted and the promised leg start at the same charge, or the flip comes half-way between the two |
| `CycleCounter.AbsorbedExactly` | src/cycle_counter.cpp:192-196 | After a flip of at most 5 points, at charge c of a leg from s, the next flip measures what is promised if and only if c is s or that flip comes half-way between s and c |
| `CycleCounter.CountedAsPromised` | src/cycle_counter.cpp:9-22 | Runs whose flips all span more than 5 points or none are counted as the header promises |
| `CycleCounter.DipCounted` | src/cycle_counter.cpp:18-22 | In the header's example, 90% to 85% to 40%, 0.45 cycles are counted where half a cycle is promised |
| `CycleCounter.NeverDecreases` | src/cycle_counter.cpp:146-172 | Cycles and both charge totals never decrease over any run in which time does not go back |
| `CycleCounter.SohWithinLegs` | src/cycle_counter.cpp:174-190 | The state of health stays within any range that holds all closed legs' spans |
| `CycleCounter.SohIsPercentage` | src/cycle_counter.cpp:174-190 | With samples taken, the state of health is within 0..100 |
| `CycleCounter.LegSpans` | src/cycle_counter.cpp:169-172 | Every counted leg is longer than 5 and at most 100 points |
| `CycleCounter.AccountsAgree` | src/cycle_counter.cpp:146-154 | Over any run the signed charge of the two counters differs by at most 0.02 A times the elapsed hours |
| `CycleCounter.Counter.UpdateChannel` | src/cycle_counter.cpp:116-201 | A bound channel is loaded if need be and ticked; it is persisted at once exactly when a leg was counted |
| `CycleCounter.Counter.TickChannel` | src/cycle_counter.cpp:139-198 | The statements of one tick leave the channel that the specification of a tick gives, and report exactly the ticks that added to the cycle count |
| `CycleCounter.Counter.Update` | src/cycle_counter.cpp:111-202 | Exactly the bound channels are ticked |
| `CycleCounter.Counter.Reset` | src/cycle_counter.cpp:246-254 | Exactly the named channel starts anew, loaded, with no direction |
| `RateLimiter.TokensInRange` | backend/internal/ratelimit.go:59-71 | Tokens stay within 0 and maxRate in every run |
| `RateLimiter.WindowBound` | backend/internal/ratelimit.go:47-73 | Grants between two calls, t seconds apart, never exceed maxRate + t * maxRate / refill |
| `RateLimiter.GrantedExactly` | backend/internal/ratelimit.go:47-73 | For any clock reads, a call is granted if and only if granting it, after the grants so far, exceeds the budget (maxRate plus the tokens earned) of no window that ends now |
| `RateLimiter.BudgetsKept` | backend/internal/ratelimit.go:47-73 | Grants between two calls never exceed maxRate plus the tokens earned between them |
| `RateLimiter.GrantsMost` | backend/internal/ratelimit.go:47-73 | Optimality: for any clock reads, no sequence of decisions that keeps the budget of every window grants more of the first n calls, for any n |
| `RateLimiter.TotalExactly` | backend/internal/ratelimit.go:61-66 | With one clock read per call, the tokens earned in a window of t seconds are exactly t * maxRate / refill |
| `RateLimiter.LevelIsLeast` | backend/internal/ratelimit.go:61-71 | The token level is the least allowance over all windows that end now |
| `RateLimiter.PatientClientServed` | backend/internal/ratelimit.go:33-42 | A client whose next call reads the clock at least refill/maxRate after the last one stamped its bucket is never refused when maxRate is at least 1, for any clock reads that do not go back |
| `RateLimiter.KeysIndependent` | backend/internal/ratelimit.go:51-57 | After any interleaved run, a key's bucket is what its own calls alone would have left |
| `RateLimiter.DecisionIsOwn` | backend/internal/ratelimit.go:47-73 | Every decision in an interleaved run is the one the key's own calls alone would have got |
| `RateLimiter.TotalWithin` | backend/internal/ratelimit.go:61-66 | Tokens earned in a window of t seconds never exceed t * maxRate / refill, for any clock reads that do not go back |
| `RateLimiter.RateLimiter.Allow` | backend/internal/ratelimit.go:47-73 | Only the key's bucket changes, to that of the specification, and the answer is its decision |
| `AlertEngine.RequiredExactly` | backend/internal/alerts.go:230-235 | The required samples are the least number, at least one, whose five-second steps cover the duration |
| `AlertEngine.StreakMeaning` | backend/internal/alerts.go:63-71 | The counter reaches n exactly when the last n samples all matched |
| `AlertEngine.SampleTaken` | backend/internal/alerts.go:167-223 | A message becomes a sample of exactly the device it names, when the rule is for that device (or any) and its type (or any); the sample is the comparison, by each of the six operators, of the value reported; an unknown operator never matches |
| `AlertEngine.ReadsReported` | backend/internal/alerts.go:182-201 | The value is the aggregate of that name, else the device's own field, else 0 |
| `AlertEngine.ConditionExactly` | backend/internal/alerts.go:206-223 | The six operators partition by the three-way comparison; no other operator matches |
| `AlertEngine.FiringExpected` | backend/internal/alerts.go:78-82 | The event sequence a history calls for ends in a firing event exactly when the current run has the required length |
| `AlertEngine.ExpectedStep` | backend/internal/alerts.go:78-82 | One more sample changes the called-for events only by an insert at a reached length or an update at a non-match |
| `AlertEngine.InsertRows` | backend/internal/alerts.go:278-282 | The insert adds a firing row for its own rule and device if there is none, and touches no other pair |
| `AlertEngine.UpdateRows` | backend/internal/alerts.go:312-315 | The update resolves the firing rows of its own rule and device, and touches no other pair |
| `AlertEngine.KeysDiffer` | backend/internal/alerts.go:61 | Counter keys of different rule/device pairs differ |
| `AlertEngine.FiringExactly` | backend/internal/alerts.go:47-84 | A firing event exists if and only if the last max(1, ceil(duration/5)) samples all matched; it is the only one, the newest, and fires and resolves alternate |
| `AlertEngine.Engine.constructor` | backend/internal/alerts.go:32-38 | The empty tables are what the empty history calls for |
| `AlertEngine.Engine.EvaluateRule` | backend/internal/alerts.go:56-82 | One sample of one rule takes its counter and events to what the longer history calls for, leaving all others |
| `AlertEngine.Engine.Evaluate` | backend/internal/alerts.go:47-84 | After every message, for every rule and device, counters and events are again what the history calls for |
| `AlertEngine.Engine.Fire` | backend/internal/alerts.go:273-291 | Afterwards an event fires for the rule and device; its event sequence grew, by one firing event, exactly when none fired before, and that of no other pair changed |
| `AlertEngine.Engine.Resolve` | backend/internal/alerts.go:311-318 | Afterwards nothing fires for the rule and device, whose events are all kept as resolved, and the sequence of no other pair changed |
| `RefreshTokens.FamiliesKept` | backend/internal/refreshtokens.go:47-156 | In every state of a run, whatever statements fail, each family has at most one live token and one user |
| `RefreshTokens.RowsOnlyAge` | backend/internal/refreshtokens.go:78-156 | Rows are never dropped, never come back to life and never change user or family |
| `RefreshTokens.RotatesOnce` | backend/internal/refreshtokens.go:115-129 | Each token rotates successfully at most once in any run |
| `RefreshTokens.RotationHandsOver` | backend/internal/refreshtokens.go:122-147 | A successful rotation leaves the new token as the only live one of the old one's family, with its user |
| `RefreshTokens.RotatesExactly` | backend/internal/refreshtokens.go:78-147 | In any run, a rotation succeeds if and only if the token names an id and a user, its row is there and live, every statement works and the new id is free; it then names the row's user and hands out a token of its family |
| `RefreshTokens.IssuedCanRotate` | backend/internal/refreshtokens.go:47-147 | An issued token can be rotated, however much later, as long as no token of its family is presented in between |
| `RefreshTokens.RotatedCanRotate` | backend/internal/refreshtokens.go:78-147 | So can the token that a rotation hands out, for the same user and in the same family |
| `RefreshTokens.UnknownRevokesFamily` | backend/internal/refreshtokens.go:98-108 | An unknown token is not found; if it names a family, exactly that family's rows are revoked, and it is dead in every later state |
| `RefreshTokens.SecondUseIsReuse` | backend/internal/refreshtokens.go:115-120 | Presenting a rotated token, however much later, is reported as reuse |
| `RefreshTokens.ReuseKillsFamily` | backend/internal/refreshtokens.go:115-120 | Once a reuse is seen and the revocation goes through, the family has no live token in any later state |
| `RefreshTokens.DeadStaysDead` | backend/internal/refreshtokens.go:47-156 | A family without a live token never gets one again |
| `RefreshTokens.RefreshTokenStore.IssueToken` | backend/internal/refreshtokens.go:47-72 | A row is added exactly when every step works, and only then is a token returned |
| `RefreshTokens.RefreshTokenStore.Revoke` | backend/internal/refreshtokens.go:150-156 | When the statement works, a family in use is dead afterwards; no row is lost or changed but for the flag, and rows of other families not at all; when it fails nothing changes |
| `RefreshTokens.RevocationKills` | backend/internal/refreshtokens.go:150-156 | Revoking a token's family leaves the family without a live token |
| `RefreshTokens.RefreshTokenStore.RotateToken` | backend/internal/refreshtokens.go:78-147 | Table and outcome of every path: unknown token, reuse, failing statement, success |
| `ProfileRegistry.HighWaterMark` | src/battery_profile.cpp:103-114 | The mark is 4 or one past a valid slot, with no valid slot at or above it |
| `ProfileRegistry.LoadedOk` | src/battery_profile.cpp:86-118 | Whatever flash holds, loading yields a sound registry: valid slots carry their index, others are blank, built-ins are valid, the mark is right |
| `ProfileRegistry.SetOk` | src/battery_profile.cpp:154-181 | An accepted set keeps the registry sound |
| `ProfileRegistry.DeleteOk` | src/battery_profile.cpp:183-199 | A delete keeps the registry sound: the mark falls past every hole below it |
| `ProfileRegistry.ResetOk` | src/battery_profile.cpp:201-208 | Resetting a built-in keeps the registry sound |
| `ProfileRegistry.LookupAfter` | src/battery_profile.cpp:120-208 | Each request changes the answer for the id it names, and for no other: a set for an id below 16 with a name and more than 0.001 Ah, a delete from id 4 on, a reset below 4 |
| `ProfileRegistry.RefusedExactly` | src/battery_profile.cpp:154-208 | A set is refused exactly for an id out of range, no name or at most 0.001 Ah, a delete below 4 and from the mark on, a reset from 4 on, and a refusal changes neither RAM nor flash; everything else writes the table and then version 1, as far as the writes work |
| `ProfileRegistry.BootAnswers` | src/battery_profile.cpp:86-134 | After a boot from any flash contents: a stored slot is answered if and only if the version is 1 and it has its own id, a name and more than 0.001 Ah; otherwise the built-ins and nothing else |
| `ProfileRegistry.LoadSaved` | src/battery_profile.cpp:59-66 | Loading the image of any sound registry gives the registry back |
| `ProfileRegistry.RebootChangesNothing` | src/battery_profile.cpp:86-118 | As long as every write works, re-running init after any run changes neither table nor count |
| `ProfileRegistry.RebootAfter` | src/battery_profile.cpp:59-66 | Under any pattern of failing writes, a reboot brings back the registry of the last written blob once the version key has been stored, and the factory defaults until then |
| `ProfileRegistry.SavedExactly` | src/battery_profile.cpp:64-65 | A set reported as saved survives a reboot if and only if the version key was there or was written too, or the profile is the factory default: the version write's own outcome is ignored |
| `ProfileRegistry.ProfileStore.constructor` | src/battery_profile.cpp:86-118 | Init from any flash contents |
| `ProfileRegistry.ProfileStore.Overlay` | src/battery_profile.cpp:103-114 | The overlay loop computes the specified table and mark |
| `ProfileRegistry.ProfileStore.Get` | src/battery_profile.cpp:120-134 | The profile, or none for an id out of range, above the mark or in a hole |
| `ProfileRegistry.ProfileStore.SetProfile` | src/battery_profile.cpp:154-181 | RAM and flash after a set; true exactly when the profile is acceptable and the blob was written |
| `ProfileRegistry.ProfileStore.ClearSlot` | src/battery_profile.cpp:188-195 | The shrink loop reaches the right mark |
| `ProfileRegistry.ProfileStore.DeleteProfile` | src/battery_profile.cpp:183-199 | RAM and flash after a delete; true exactly when the id is a custom one below the mark and the blob was written |
| `ProfileRegistry.ProfileStore.ResetProfile` | src/battery_profile.cpp:201-208 | RAM and flash after a reset; nothing for a custom id |
| `OtaClient.Safe` | src/ota_client.cpp:100-424 | In every reachable state: connection, handle and hash context were only ever used and given back while held, taken only while free, and outside a download all are given back; bytes hashed are bytes written and the 32-bit count is their number; the boot partition was set at most once, to an image of exactly the offered size and hash; the failed state is never entered |
| `OtaClient.AlwaysOk` | src/ota_client.cpp:100-434 | The invariant behind Safe holds after any run of ticks, triggers and interval changes from any state in which it holds |
| `OtaClient.StepKeeps` | src/ota_client.cpp:100-434 | Every input keeps the invariant |
| `OtaClient.InstalledExactly` | src/ota_client.cpp:261-405 | When exactly the offered bytes arrive in time on a connection that holds and no write fails, with any ticks in between that find no data or no WiFi and any other calls, the client boots them if and only if their hash is the offered one (ignoring case); otherwise it is idle with nothing set |
| `OtaClient.AlwaysFromOffers` | src/ota_client.cpp:178-258 | In every reachable state: the version, size and hash a download goes by are those of an available offer an earlier input carried (cut to 15 and 64 characters), and so are size and hash of every image booted |
| `OtaClient.OfferStarts` | src/ota_client.cpp:178-258 | An idle client that is triggered and given a usable offer is downloading, with the offer's size, hash and version |
| `OtaClient.OfferInstalled` | src/ota_client.cpp:178-405 | From the offer to the boot: an idle client that is triggered, offered an image and brought its bytes boots them if and only if their hash is the one in the offer, letter case aside; otherwise it is idle with nothing set |
| `OtaClient.FoldedExactly` | src/ota_client.cpp:362 | The comparison of hashes ignores the case of letters and nothing else |
| `OtaClient.Delivers` | src/ota_client.cpp:261-330 | After n such inputs the partition holds what they brought, and the client is still downloading exactly while bytes are missing |
| `OtaClient.ProgressExactly` | src/ota_client.cpp:318-320 | The progress of a download of a given size is the true percentage, capped at 100, in every reachable state of every run, if and only if the size is at least 656 bytes |
| `OtaClient.SurplusShows` | src/ota_client.cpp:315-320 | For every smaller size, a run of four calls after which it is wrong |
| `OtaClient.LateTick` | src/ota_client.cpp:266-271 | The first tick after the time limit gives everything back and sets nothing |
| `OtaClient.PollsWhenDue` | src/ota_client.cpp:105-116 | In every reachable state, in true time: with no trigger since the timer's last poll (or boot), an idle client polls at a tick if and only if the interval has passed since then, modulo 2^32 ms; after a trigger, if and only if the 32-bit clock reads at least the interval; a tick that does not poll changes nothing |
| `OtaClient.TimerHolds` | src/ota_client.cpp:105-116 | In every reachable state the timer field holds the 32-bit time of its last poll (or boot), or 0 since a trigger started a check |
| `OtaClient.PollsTwice` | src/ota_client.cpp:426-434 | A run in which the timer polls one millisecond after the check of a trigger |
| `OtaClient.IntervalKept` | src/ota_client.cpp:452-457 | Whatever servers and callers ask for, the poll interval stays between 60 and 86400 seconds |
| `OtaClient.IntervalExactly` | src/ota_client.cpp:452-457 | An interval asked for by a caller, or by a server with no update or a usable offer, is brought within 60..86400 and kept; 0 from a server and unusable answers leave the old one |
| `OtaClient.CleanedUpKeeps` | src/ota_client.cpp:58-84 | From any point of a download, cleaning up gives back exactly what is held |
| `OtaClient.Updater.CleanUp` | src/ota_client.cpp:58-84 | Each resource is given back exactly if its pointer, handle or flag says it is held |
| `OtaClient.Updater.StartDownload` | src/ota_client.cpp:212-258 | The client after each way a download can start or fail to |
| `OtaClient.Updater.Check` | src/ota_client.cpp:120-259 | The client after each answer of the server |
| `OtaClient.Updater.ReadChunk` | src/ota_client.cpp:261-331 | The client after each way a chunk can arrive or not |
| `OtaClient.Updater.Apply` | src/ota_client.cpp:333-405 | The client after verification, finalising and setting the boot partition, with each failure |
| `OtaClient.Updater.Loop` | src/ota_client.cpp:100-424 | One tick keeps the invariant and refines the specification; the failed branch is dead |
| `OtaClient.Updater.TriggerCheck` | src/ota_client.cpp:426-434 | A trigger starts a check from idle and is ignored otherwise |

## Left out

- LogPublisher.SampleLocated: gives a flushed entry's place only while the card fails nothing (no failed or short append, no wipe, no deletion after a failed read); SpillReachesExactly, TornExactly, SpillKeepsExactly, TickKeepsExactly and DeletedExactly say, event by event, when that fails.
- LogPublisher.PublishedOnce: a publish call that the broker took but reported as failed is a duplicate to subscribers; the model has one answer per call. The serial command "flush log" (`src/main.cpp:731`), which pops batches and throws them away, is not one of its events.
- LogRing.DataLogger.LogSample: takes the twelve quantised values; the conversion from floating-point readings, the epoch bookkeeping, the high-water message and the CSV row are not modelled.
- FieldIter.Iterator.Load: follows addresses up to pField and pSize; pData behind a pointer field, and extension chains (`pb_field_iter_begin_extension`, `find_extension`), need the message in memory.
- SwitchController.Controller.Evaluate: takes each condition's outcome as given; the per-condition hysteresis (lines 489-514, which store the falling branch's "reset reached" as "true", so a steady reading alternates) is not a guarantee to prove.
- SwitchController.Controller.constructor: default configuration, pin modes, the expander and saving settings are not modelled.
- CycleCounter.NeverDecreases: is about runs between a load or reset and the next; `cycle_counter_put` injects any state. When states are saved is not modelled, beyond the result of UpdateChannel.
- CoulombCounter.Counter.Update: periodic saving is not modelled.
- AlertEngine.Engine.Evaluate: failed statements, e-mails and the reload of rules every 30 s are not modelled.
- RefreshTokens.RotatesOnce: for calls that do not overlap; two overlapping calls with one token can both pass the lookup before either update. Signing, expiry and the missing-database error are not modelled.
- ProfileRegistry.RebootAfter: a flash write either happens as a whole or not at all.
- OtaClient.Safe: error texts, status messages, saving the poll interval and the confirmation after a reboot (`ota_confirm_valid`) are not modelled; after ESP.restart() the model's client stays in the rebooting state.
- `battery_profile_list_ids` (it also lists holes), the event and error rings, license counts, the batch writer, the command queue, the enricher and version comparison: easier versions of the above.
- WiFi, MQTT, HTTP, BLE, JSON, SD and NVS drivers, sensors, display, buttons, UI configuration, CRUD handlers, OAuth, e-mail, search and export.
- Task preemption inside a step, floating-point rounding and NaN.
