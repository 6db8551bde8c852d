# SCU35 Bitcoin miner: a verified model

The repository is a Bitcoin miner for a small FPGA board. SHA-256 lanes in SystemVerilog hash 80-byte block headers; C firmware
on a soft core speaks Stratum to a pool, loads the mining registers, collects results, rechecks and submits them; settings live
in an EEPROM; a first-stage loader boots the firmware from flash. This project models the logic that those parts share and
proves what they promise each other, from one clock edge of the compression core up to the shares a pool receives.

The modules, from the bottom up:

- `Sha256Spec`, `Sha256Message`: FIPS 180-4 sections 5.1.1 and 6.2 over words and bytes, the reference for everything else.
  `Sha256Constants`, `Sha256Logic`, `Sha256Bits`, `Sha256KnownAnswer`: what pins that reference down: the constants as roots of
  primes, the logical functions bit by bit, and the published digest of "abc".
- `Sha256Software`: the firmware's compression loop and streaming context. `Sha256Core`: the clocked core, with its sixteen-word
  ring and its four or five phases a round, refined to a view that only counts clocks.
- `ShareHash`, `HashEngine`: the two passes over fixed padding blocks, the nonce loop and the word-serial target comparison.
- `ResultFifo`, `MinerControl`, `MiningBatch`, `BatchDelivery`, `MinerLifecycle`, `ReadPort`, `BatchShares`, `GenuineResults`,
  `RegisterLoad`, `HeaderRanges`, `HeaderDelivery`, `ResultPoll`, `BatchReadout`, `LostResults`: the collectors, the
  divide-by-three launcher, the
  arbiter and the status bits, clocked together with three lanes, and what whole runs of them deliver, up to the 256 ranges of a
  header. Core phases and FIFO depth are parameters.
- `Bignum`, `LongDivision`, `DecimalNumeral`, `DifficultyTarget`, `DifficultyValue`: exact decimal difficulty to 256-bit target, and
  the real number it is a quotient by.
- `Eeprom`, `SettingsRecord`, `CrcResidue`, `SettingsStore`: the two-slot settings store under power failure at any byte, and its
  checksum.
- `Hexadecimal`, `SRecord`, `BootImage`, `Bootloader`: hexadecimal text, the S-record parser and the loader.
- `BlockHeader`, `StratumLedger`, `StratumSession`: header building, the share ledger, and the session as a state machine.

Code that updates state in place is modelled in place: classes and arrays, each method proved against a function of the old
state. A clocked block becomes a `Clock` method (`Sha256Core.Core`, `HashEngine.Engine`, `ResultFifo.Fifo`) proved against a
next-state function, and the theorems about runs are about iterating that function.

What the proofs found out about the code:

- A lane may be started only after its core has drained. `HashEngine.StartNeedsDrain` gives the exact condition, and
  `HashEngine.StaleDigestTaken` shows the digest of the abandoned job entering the new one otherwise. The clear bit alone does not
  flush (`MinerLifecycle.ClearAloneRefetches`); STOP, CLEAR and more than one core latency before
  the next START do (`MinerLifecycle.StopSequenceSilences`).
- The loader refuses a record that fills its count byte, although the parser accepts it: the full 514-byte line buffer is reported
  before the line break is looked at. `BootImage.FullRecordRefused` says for every record which of the two happens.
- The end-of-range test of the firmware reads STATUS bit 3 only at the start of a poll and RESULT_STATUS bit 0 at its end, and
  `start_range` then clears the overflow flag. Results can be lost without its noticing: `LostResults.OverflowGoesUnnoticed` is
  such a run, for every header and range. The firmware keeps up until three bursts before the end, reads STATUS, is then held up,
  and finds at most eight results, no more than it has slots, where ten were reported. The exact condition is bit 1 of the RESULT_STATUS
  word it already reads: the range was delivered in full if and only if that bit is clear (`BatchShares.DoneReadThenEmptyRead`, and
  for whole headers `HeaderDelivery.RangesCoverNonceSpace`).

## Model

| member | source | states |
|---|---|---|
| Words.AddReorder | software/common/sha256_sw.c:78-78 | the four-term wrapping sum of the schedule is the same in the C order and in the order of FIPS 180-4 |
| Sha256Spec.ExtendScheduleRecurrent | software/common/sha256_sw.c:75-79 | all 64 schedule words satisfy the recurrence over the words 2, 7, 15 and 16 back |
| Sha256Constants.RoundConstants | software/common/sha256_sw.c:5-22 | constant i is the first 32 fraction bits of the cube root of the prime that has exactly i primes below it (section 4.2.2 of FIPS 180-4) |
| Sha256Constants.PrimeTable | software/common/sha256_sw.c:5-22 | the primes used for that are the first sixty-four: entry i is prime and has exactly i primes below it |
| Sha256Constants.InitialValue | software/common/sha256_sw.c:47-54 | the eight initial words are the first 32 fraction bits of the square roots of the first eight primes (section 5.3.3) |
| Sha256Logic.RotationBit | software/common/sha256_sw.c:24-27 | bit j of a rotation by n is bit (j + n) mod 32 of the word |
| Sha256Logic.ChBit | software/common/sha256_sw.c:92-92 | every bit of the first word selects between the other two |
| Sha256Logic.MajBit | software/common/sha256_sw.c:95-95 | every bit is the majority of the three |
| Sha256Logic.BigSigma0Bit | software/common/sha256_sw.c:94-94 | bit j is the parity of the bits 2, 13 and 22 places to its left, around the word |
| Sha256Logic.BigSigma1Bit | software/common/sha256_sw.c:91-91 | the same for 6, 11 and 25 |
| Sha256Logic.SmallSigma0Bit | software/common/sha256_sw.c:76-76 | the same for 7 and 18, and 3 places without wrapping |
| Sha256Logic.SmallSigma1Bit | software/common/sha256_sw.c:77-77 | the same for 17 and 19, and 10 places without wrapping |
| Sha256KnownAnswer.CompressionOfAbc | software/common/sha256_sw.c:59-116 | the compression of the one block of "abc" gives the eight published words |
| Sha256KnownAnswer.HashOfAbc | software/common/sha256_sw.c:59-165 | SHA-256 of "abc", padding and byte order included, is the published digest ba7816bf ... f20015ad |
| Sha256Software.CompressInPlace | software/common/sha256_sw.c:59-116 | the in-place update of eight words is the compression function of FIPS 180-4 |
| Sha256Software.ScheduleWords | software/common/sha256_sw.c:71-79 | the loops produce the full schedule of the block |
| Sha256Software.RoundLoop | software/common/sha256_sw.c:90-106 | the rotation of eight variables computes the composed rounds |
| Sha256Software.Context.Update | software/common/sha256_sw.c:118-136 | appends any data, empty or long, to the absorbed message; the buffer stays under 64 bytes between calls |
| Sha256Software.Context.Final | software/common/sha256_sw.c:138-165 | yields SHA-256 of the whole absorbed message however it was split into updates |
| Sha256Software.PaddingShape | software/common/sha256_sw.c:142-158 | the one-block and two-block tails are the padding of section 5.1.1 of FIPS 180-4 |
| Sha256Software.LengthBytesModulo | software/common/sha256_sw.c:120-120 | the wrapping 64-bit counter gives the right length field |
| Sha256Software.DoubleHash | software/common/bitcoin.c:18-21 | `sha256d` is SHA-256 of SHA-256 |
| Sha256Software.HeaderMidstate | software/common/sha256_sw.c:167-177 | the midstate is the chaining value after the first 64 header bytes |
| Sha256Core.RingReads | rtl/sha256_core_iterative.sv:226-235 | reading d words back in the ring finds schedule word r - d |
| Sha256Core.RingAdvances | rtl/sha256_core_iterative.sv:248-276 | writing slot r mod 16 leaves exactly the last sixteen schedule words in the ring |
| Sha256Core.AddScheduleHolds | rtl/sha256_core_iterative.sv:243-247 | the pipelined sums give the next schedule word and, with four phases, T1, in another order of addition |
| Sha256Core.Core.Clock | rtl/sha256_core_iterative.sv:191-299 | every clock edge keeps the ring and pipeline invariant and refines the clock-counting view |
| Sha256Core.Core.FinishRound | rtl/sha256_core_iterative.sv:248-299 | the last phase completes one round, and after round 63 the digest is the compression of the latched inputs |
| Sha256Core.CompressionTakesLatency | rtl/sha256_core_iterative.sv:202-299 | from an accepted start the core is busy for exactly 256 or 320 clocks whatever its inputs, then raises done once with the digest |
| ShareHash.BlockOfHeaderEnd | rtl/bitcoin_sha256_core.sv:26-43 | the wired first block is the padded end of the header with its nonce |
| ShareHash.BlockOfDigest | rtl/bitcoin_sha256_core.sv:26-43 | the wired second block is the padded 32-byte digest |
| ShareHash.TwoPassesAreSha256d | rtl/bitcoin_sha256_core.sv:26-43 | midstate, tail words and two fixed blocks compute the software double hash of the header with the nonce |
| ShareHash.ReversedWordsValue | rtl/bitcoin_hash_engine.sv:49-54 | the byte-reversed digest words are the little-endian value of the digest |
| HashEngine.CmpDecides | rtl/bitcoin_hash_engine.sv:143-165 | the eight-step word comparison decides digest at or below target |
| HashEngine.Engine.Clock | rtl/bitcoin_hash_engine.sv:74-185 | the lane registers and the core step together as the next-state function says |
| HashEngine.RunStep | rtl/bitcoin_hash_engine.sv:101-165 | every clock within a nonce follows the closed form, for all data and any start input |
| HashEngine.NonceEnds | rtl/bitcoin_hash_engine.sv:167-182 | the last clock of a nonce leads to the next one or to done |
| HashEngine.EngineFollowsSchedule | rtl/bitcoin_hash_engine.sv:97-182 | a lane started while not busy handles nonce k from clock 527k (655k) on and finishes n nonces after exactly 527n (655n) clocks |
| HashEngine.MeetsIsShare | rtl/bitcoin_hash_engine.sv:143-165 | the hardware condition is the firmware's share condition for the header behind the registers |
| HashEngine.PulsesExactlyTheShares | rtl/bitcoin_hash_engine.sv:97-182 | in every clock a result is pulsed if and only if a nonce just ended whose double hash is at or below the target, and the result is that nonce |
| HashEngine.StartNeedsDrain | rtl/bitcoin_hash_engine.sv:97-122 | a start of an idle lane is on schedule exactly when the core has at most its last clock to go |
| HashEngine.StaleDigestTaken | rtl/bitcoin_hash_engine.sv:97-131 | and otherwise, at whatever age the core is when the start is accepted, the first-pass digest taken by the new job is the abandoned job's |
| ResultFifo.Fifo.Clock | rtl/bitcoin_result_cluster_fifo.sv:67-141 | ring memories, pointers, count and stages refine a queue behind two stages, including the registered clear |
| ResultFifo.Fifo.MoveRing | rtl/bitcoin_result_cluster_fifo.sv:117-139 | push and pop, together or alone and also when full, are queue operations |
| ResultFifo.Fifo.Scan | rtl/bitcoin_result_cluster_fifo.sv:49-65 | the priority encoder counts the valid ports and finds the lowest |
| ResultFifo.Fifo.Head | rtl/bitcoin_result_cluster_fifo.sv:43-45 | the outputs show the oldest entry, if any |
| ResultFifo.FifoConserves | rtl/bitcoin_result_cluster_fifo.sv:97-139 | one clock neither loses, duplicates nor reorders a result unless an overflow starts |
| ResultFifo.FifoIsQueue | rtl/bitcoin_result_cluster_fifo.sv:43-141 | over any run, results out plus results held equal results in, in order, if and only if no overflow is flagged or in flight |
| MinerControl.DividerContinues | rtl/bitcoin_miner_axi.sv:559-569 | each step of the restoring division keeps the closed form |
| MinerControl.DividerEnds | rtl/bitcoin_miner_axi.sv:559-569 | after 32 steps the registers hold the count divided by three and the remainder |
| MiningBatch.QuotaIsWorkCount | rtl/bitcoin_miner_axi.sv:220-229 | quotient and remainder give each lane what `engine_work_count` would |
| MiningBatch.NonceAtClosed | rtl/bitcoin_hash_engine.sv:167-178 | the k-th nonce of lane i, by wrapping stride, is batch position i + 3k |
| MiningBatch.LanesPartitionBatch | rtl/bitcoin_miner_axi.sv:246-253 | every batch position belongs to exactly one lane and is inside that lane's quota if and only if it is inside the batch |
| MiningBatch.BatchNoncesDistinct | rtl/bitcoin_miner_axi.sv:571-578 | no nonce word occurs twice in a batch, also across the 32-bit wrap |
| MiningBatch.LauncherStep | rtl/bitcoin_miner_axi.sv:554-600 | divider and loader follow a closed form from the start write to idle, 41 clocks later |
| MiningBatch.LaneContinues | rtl/bitcoin_miner_axi.sv:570-595 | each lane is started once, three clocks after the one before, with its own part of the batch, and then keeps to its schedule |
| MiningBatch.NoCollision | rtl/bitcoin_miner_axi.sv:570-595 | two lanes of a batch never report in the same clock |
| BatchDelivery.FlowStep | rtl/bitcoin_miner_axi.sv:602-611 | copying the head, popping it a clock later and acknowledging it never loses or repeats a result while the collector is clean, and what is missing once it is not stays missing |
| BatchDelivery.BatchStep | rtl/bitcoin_miner_axi.sv:554-620 | one clock of the whole miner keeps launcher, lanes, collectors, register and status on the closed form of the batch |
| BatchDelivery.CompletionTime | rtl/bitcoin_miner_axi.sv:613-618 | done is raised when the last lane is idle, never by all lanes finishing together |
| BatchDelivery.OverflowMeansFull | rtl/bitcoin_result_cluster_fifo.sv:105-116 | in a batch overflow arises only from a full collector that is not being popped |
| MinerLifecycle.SilentRun | rtl/bitcoin_miner_axi.sv:505-620 | a silent miner stays silent through any writes but a start: no result ever appears |
| MinerLifecycle.StopRun | rtl/bitcoin_miner_axi.sv:527-533 | a stop write in any state of the miner idles the launcher and the lanes and flushes the collectors |
| MinerLifecycle.StopSequenceSilences | software/application/stratum.c:35-39 | from any state, a stop, a clear at least two clocks later, and more than one core latency from the stop on with any writes but a start: the miner is silent, whether the core drained before the clear or after |
| MinerLifecycle.ClearAloneRefetches | rtl/bitcoin_miner_axi.sv:534-611 | after a clear write the result register shows a result if and only if it was empty before and a collector was not |
| MinerLifecycle.BatchRun | rtl/bitcoin_miner_axi.sv:505-620 | every run of a batch from a silent miner, under any pattern of acknowledgements, follows the closed form |
| MinerLifecycle.DoneAndEmptyMeansDelivered | rtl/bitcoin_miner_axi.sv:606-618 | done in one clock, and three or more idle clocks later no result: everything reported was acknowledged, in order per cluster, or overflow is flagged and fewer were |
| ReadPort.OneAtATimeKept | rtl/bitcoin_miner_axi.sv:318-321 | the read pipeline never holds two reads |
| ReadPort.SamplesFourApart | rtl/bitcoin_miner_axi.sv:465-481 | two samples of the read channel are at least four clocks apart, whatever the master does |
| ReadPort.SampleIsAnswered | rtl/bitcoin_miner_axi.sv:470-481 | a read returns the register as it was in the sampling clock |
| ReadPort.TwoReadsReturn | rtl/bitcoin_miner_axi.sv:465-481 | STATUS and then RESULT_STATUS, read back to back, return the registers of two clocks at least four apart |
| BatchShares.ProducedByLane | rtl/bitcoin_hash_engine.sv:154-182 | what a lane reported before any clock is exactly the shares among the nonces it had finished, in order |
| BatchShares.MadeIsExact | rtl/bitcoin_hash_engine.sv:154-182 | the reports of a finished batch are the shares among start..start+count-1, each once, and nothing else |
| BatchShares.BatchDeliversExactlyTheShares | rtl/bitcoin_miner_axi.sv:505-620 | the acknowledged results of a finished, emptied batch are exactly those shares if and only if overflow is not flagged |
| BatchShares.DoneReadThenEmptyRead | software/application/stratum.c:169-169 | read over the channel: STATUS answers with bit 2 set, RESULT_STATUS then with bit 0 clear; the batch was delivered exactly if and only if bit 1 of the second answer is clear as well |
| LostResults.KeepUp | software/application/stratum.c:138-175 | rings of four with every nonce a share: three turns of the polling loop for each burst of reports, at up to fifty clocks a read, keep up to any point of a range without overflow |
| LostResults.OverflowGoesUnnoticed | software/application/stratum.c:138-173 | for every header and range, at depth up to four, a run of the polling loop in which STATUS bit 3 is clear when the last poll begins, that poll reads at most eight results and its end-of-range test passes, although results are missing; the next range then lowers the overflow flag |
| HeaderRanges.DoneAndEmptyRests | software/application/stratum.c:169-173 | a batch seen done and empty leaves the miner at rest, and silent unless overflow is flagged |
| HeaderRanges.RangeBegins | software/application/stratum.c:50-52 | between ranges, with or without overflow, the clear write flushes the collectors before the start write and only the nonce registers change |
| HeaderRanges.RangesRest | software/application/stratum.c:169-173 | after any number of ranges the next one begins from a miner at rest with the header's registers |
| HeaderRanges.RangeShowsShares | software/application/stratum.c:138-175 | in every range of a header, whatever happened in those before, a result shown is a share of the header |
| HeaderDelivery.RangeExact | software/application/stratum.c:169-173 | range k delivers exactly its shares if and only if it did not overflow, and fewer otherwise |
| HeaderDelivery.RangesCoverNonceSpace | software/application/stratum.c:169-173 | the acknowledged results of all 256 ranges are the header's shares over all 2^32 nonce words, each once and nothing else, if and only if no range overflowed |
| ResultPoll.RegisterKeeps | rtl/bitcoin_miner_axi.sv:606-611 | a result stays in the register until it is acknowledged |
| ResultPoll.PollReadsAcknowledged | software/application/stratum.c:141-142 | the nonces that the polling loop reads are those of the results it acknowledges, in order |
| GenuineResults.GenuineRun | rtl/bitcoin_miner_axi.sv:554-620 | throughout a batch, overflow or not, every result queued, shown or acknowledged meets the target in its lane |
| GenuineResults.ShownResultIsShare | rtl/bitcoin_miner_axi.sv:606-611 | whatever the result register shows in any clock of a batch is a share of the loaded header |
| RegisterLoad.JobRun | rtl/bitcoin_miner_axi.sv:484-545 | only register writes change the job registers, whatever the rest of the miner does |
| RegisterLoad.RegistersLoaded | software/application/stratum.c:50-65 | the firmware's writes, with any idle clocks between, leave exactly the intended midstate, tail, target and range in the registers |
| RegisterLoad.RangeLoads | software/application/stratum.c:50-52 | starting another range changes the nonce registers only |
| RegisterLoad.JobChangeIsClean | software/application/stratum.c:35-69 | from any state, stop, clear and the loading writes leave a silent miner with exactly the new job if more than a core latency passes from the stop to the start |
| Bignum.Multiply10 | software/common/bitcoin.c:39-43 | 10a + d in place, refused exactly when it does not fit |
| Bignum.Compare | software/common/bitcoin.c:44-47 | the sign of the difference of the two numbers |
| Bignum.Subtract | software/common/bitcoin.c:48-51 | the exact difference, borrow included |
| Bignum.ShiftIn | software/common/bitcoin.c:77-78 | 2r + bit, which fits |
| LongDivision.TopBitsAll | software/common/bitcoin.c:77-77 | the bits taken from limb bit/32 at bit mod 32 make up the number |
| LongDivision.OutStep | software/common/bitcoin.c:81-81 | setting one bit of the eight output words appends a binary digit to their value |
| LongDivision.Divide | software/common/bitcoin.c:75-84 | the 1024-step restoring division gives the quotient rounded down, saturated at 2^256 - 1 |
| DecimalNumeral.SpellSplits | software/common/bitcoin.c:56-68 | a text has at most one reading as a numeral |
| DecimalNumeral.SplitSpells | software/common/bitcoin.c:56-68 | the reading of a text spells that text |
| DifficultyTarget.ScanMantissa | software/common/bitcoin.c:56-63 | the scan accepts exactly the well-formed non-zero mantissas of at most 64 digits and computes their digits' value |
| DifficultyTarget.ScanExponent | software/common/bitcoin.c:64-69 | the scan accepts exactly the exponents that never run past 128 and computes the signed value |
| DifficultyTarget.DenominatorFits | software/common/bitcoin.c:73-73 | scaling the denominator cannot overflow 1024 bits and leaves the top bit free for the division |
| DifficultyTarget.NumeratorFits | software/common/bitcoin.c:72-74 | scaling the numerator cannot overflow 1024 bits |
| DifficultyTarget.BitcoinTarget | software/common/bitcoin.c:52-86 | accepted exactly for admissible numerals; the words are then the scaled integer quotient, saturated; a rejection leaves them untouched |
| DifficultyTarget.AcceptedTexts | software/common/bitcoin.c:55-71 | a text is accepted if and only if it spells some admissible numeral |
| DifficultyValue.DifficultyIsScaled | software/common/bitcoin.c:56-71 | whole part plus fraction times the power of ten, as a real number, is the scanned digits times ten to exponent minus fraction length |
| DifficultyValue.NegativeExponent | software/common/bitcoin.c:65-70 | a numeral with exponent -t times 10^t is the numeral without its exponent |
| DifficultyValue.PositiveExponent | software/common/bitcoin.c:65-70 | a numeral with exponent t, with or without a plus sign, is the numeral without it times 10^t |
| DifficultyValue.ExponentOrder | software/common/bitcoin.c:65-69 | for t > 0, "xe-t" is less than "x", and "xe+t" and "xet" are more |
| DifficultyValue.WholeNumber | software/common/bitcoin.c:56-62 | a numeral without point and exponent is the number of its digits |
| DifficultyValue.PointMoves | software/common/bitcoin.c:58-60 | moving the point one digit to the right multiplies by ten |
| DifficultyValue.AllTenDigits | software/common/bitcoin.c:61-61 | every digit character has its value, and the first digit counts most |
| DifficultyValue.DifficultyOneTarget | software/common/bitcoin.c:72-72 | the numerator is 0xffff 2^208 |
| DifficultyValue.TargetIsFloor | software/common/bitcoin.c:36-37 | the target is min(floor(0xffff 2^208 / D), 2^256 - 1) for the real number D that the text denotes |
| DifficultyValue.LargerDifficultySmallerTarget | software/common/bitcoin.c:36-37 | a larger difficulty never gives a larger target; equal values give equal targets however they are spelt |
| DifficultyTarget.TextOne | software/application/stratum.c:192-192 | the initial difficulty is accepted and gives the difficulty-one target |
| Eeprom.Device.Write | software/application/eeprom.c:44-60 | over pages that wrap, a write is a flat update of as many bytes as reached the device |
| Eeprom.Device.Read | software/application/eeprom.c:27-43 | chunked reads return the flat contents |
| Eeprom.OutsideSlotsUntouched | software/application/eeprom.c:46-46 | no write, accepted or not, changes a byte outside 0x1000..0x13ff |
| SettingsRecord.ComputeCrc | software/common/settings.c:9-13 | the bit loop computes the reflected CRC-32 |
| CrcResidue.Residue | software/common/settings.c:9-13 | for every string, running on over its own checksum as `put32` writes it leaves the register at 0xdebb20e3 |
| CrcResidue.CheckValue | software/common/settings.c:9-13 | the checksum of "123456789" is 0xcbf43926, the published check value of CRC-32 |
| SettingsRecord.RecordRoundTrip | software/common/settings.c:36-44 | unpacking a record gives the settings, number and commit byte, and a committed record of valid settings is valid |
| SettingsRecord.RecordLayout | software/common/settings.c:36-70 | where every field of a record is, byte by byte: magic, version, number, address, port, strings, checksum and commit byte |
| SettingsRecord.ValidString | software/common/settings.c:18-25 | a string is accepted if and only if it ends inside its field with only printable characters, no quote and no backslash before |
| SettingsRecord.ValidHost | software/common/settings.c:32-33 | a host name is accepted if and only if there are only letters, digits, points and hyphens before its end |
| SettingsRecord.DefaultsValid | software/common/settings.c:14-17 | the defaults are valid settings |
| SettingsRecord.InvalidSettings | software/common/settings.c:27-29 | a zero or multicast address and a zero port are refused |
| SettingsStore.BuildRecord | software/common/settings.c:67-70 | the assembled buffer is the uncommitted record |
| SettingsStore.ReadSlots | software/common/settings.c:45-52 | the slot chosen is the only valid one or the newer of two by wrapping comparison |
| SettingsStore.NewerMeans | software/common/settings.c:51-51 | a number is newer exactly if it lies 1 to 2^31 - 1 steps ahead, across the wrap too |
| SettingsStore.Load | software/common/settings.c:53-59 | returns the stored settings or the defaults, and says which |
| SettingsStore.NextNumberWins | software/common/settings.c:51-66 | a committed record with the next number is the one loaded, also across the 32-bit wrap |
| SettingsStore.SaveIsAtomic | software/common/settings.c:60-75 | a save cut off at any byte leaves either the old settings or, if the commit byte arrived, the new ones |
| SettingsStore.LoadFindsLastCommitted | software/common/settings.c:53-75 | over any run of saves, each cut off anywhere, on any initial contents, a load finds the last committed settings |
| SettingsStore.SavesStayInSlots | software/common/settings.c:60-75 | no run of saves touches a byte outside the two slots |
| SettingsStore.SaveSettings | software/common/settings.c:60-75 | the device ends up as described for every failure point; 0 is returned only when the next load gives exactly these settings |
| SRecord.ParseLine | software/common/srec.c:13-36 | the loop computes the record that the line denotes, or refuses; no store is outside the 252 data bytes |
| SRecord.ParsePrint | software/common/srec.c:13-36 | parsing undoes printing for every supported type and length; addresses have two, three or four bytes by type as tabulated |
| SRecord.ParseExample | software/common/srec.c:13-36 | the line "S0030000FC" is the empty header record |
| SRecord.DamageRejected | software/common/srec.c:24-35 | changing the value of any one encoded byte of an accepted line, count and checksum included, makes it refused |
| BootImage.LoadConfined | software/bootloader/main.c:60-101 | for any flash contents, loading writes the bus only inside the RAM window |
| BootImage.LoadReplays | software/bootloader/main.c:60-101 | any serialization, with header records, right count records and any line breaks in between, replays its data records in order and yields the entry address exactly if it is valid |
| BootImage.LoadPasses | software/bootloader/main.c:75-99 | at any point, header records and right count records change nothing, and data records are stored in order |
| BootImage.OnlyDataMatters | software/bootloader/main.c:75-79 | loading a text gives the same as loading it without its header and count records |
| BootImage.WrongCountFails | software/bootloader/main.c:76-79 | a count record that does not name the data records so far makes loading fail, with nothing more written |
| BootImage.MisplacedDataFails | software/bootloader/main.c:84-98 | so does a data record in neither window; one whose cells fail their read-back fails too |
| BootImage.BadLineFails | software/bootloader/main.c:65-74 | so does a line that is no record or does not start with S |
| BootImage.UnfinishedLineFails | software/bootloader/main.c:65-70 | so does a flash that ends inside a line |
| BootImage.FullRecordRefused | software/bootloader/main.c:68-73 | a printed record is read as one line if and only if it does not fill its count byte; one that does makes loading fail |
| BootImage.ReplayIsImage | software/bootloader/main.c:84-99 | every address covered by the records gets its byte of the image, in RAM or in the vector shadow, and every other keeps what it had |
| BootImage.ReplayCounts | software/bootloader/main.c:96-99 | the record count and the bounds of the loaded range are those of the records |
| Bootloader.Loader.GetByte | software/bootloader/main.c:49-59 | the cached reader hands out the flash bytes in order until the region or the transfers end |
| Bootloader.Loader.NextLine | software/bootloader/main.c:64-73 | the two inner loops read the next line or fail, consuming the stream |
| Bootloader.Loader.StoreRecord | software/bootloader/main.c:84-99 | a data record goes to the vector shadow, to RAM up to a failing cell, or nowhere |
| Bootloader.Loader.Load | software/bootloader/main.c:60-101 | terminates on any flash contents with the specified verdict, RAM and shadow |
| Bootloader.Loader.Boot | software/bootloader/main.c:139-147 | starts exactly when all checks pass; otherwise nothing outside RAM has changed, live vectors included |
| Bootloader.InstallAt | software/bootloader/main.c:143-144 | installing changes exactly the four eight-byte vectors |
| Bootloader.VectorsAre | software/bootloader/main.c:105-105 | the live vectors are the eight bytes at 0, 8, 16 and 32 each |
| Bootloader.SerializedImageAccepted | software/bootloader/main.c:80-82 | a serialized image, with header and right count records anywhere, is accepted if and only if its entry is aligned and inside the loaded range and its records cover the four vectors |
| Bootloader.SerializedImageBoots | software/bootloader/main.c:60-147 | when it boots, RAM and live vectors hold exactly the image at every covered address, and every other address is as before |
| BlockHeader.BuildHeader | software/common/bitcoin.c:23-35 | the loops build the header of the job and extranonces: word-swapped fields and the Merkle root |
| BlockHeader.HeaderLayout | software/common/bitcoin.c:32-34 | where every byte of version, previous hash, time and bits is in the header; the nonce bytes are zero |
| BlockHeader.RootInHeader | software/common/bitcoin.c:27-34 | bytes 36 to 67 are the end of a path that starts with the double hash of coin1, extra1, extra2, coin2 and, for each branch, takes the double hash of the 64 bytes of itself and the branch |
| BlockHeader.ClimbBranches | software/common/bitcoin.c:31-31 | hashing along the branches gives the Merkle root |
| BlockHeader.CheckShare | software/application/stratum.c:144-151 | the byte comparison accepts exactly the shares |
| Hexadecimal.DecodeHexText | software/common/bitcoin.c:5-17 | decoding undoes encoding |
| Hexadecimal.HexTable | software/common/bitcoin.c:8-15 | which characters are digits, with their values, in both cases; what is written is lower case |
| Hexadecimal.HexEncode | software/common/bitcoin.c:14-17 | the buffer holds the terminated hexadecimal text of the bytes |
| Hexadecimal.HexDecode | software/common/bitcoin.c:5-13 | returns the byte count and the bytes exactly for an even number of hexadecimal digits that fits, else -1 |
| StratumLedger.Increment | software/application/stratum.c:67-67 | the byte loop adds one to the big-endian counter and reports exactly the overflow |
| StratumLedger.CounterNext | software/application/stratum.c:66-67 | using one extranonce keeps the counter equal to the number used, or exhausted when all are |
| StratumLedger.ExtranoncesDistinct | software/application/stratum.c:66-67 | no two headers between resets share an extranonce2 |
| StratumLedger.ExhaustedAfterAll | software/application/stratum.c:54-67 | the counter is exhausted after exactly 256^size headers |
| StratumLedger.SendKeeps | software/application/stratum.c:152-160 | a sent share gets the next id and one slot; ids stay 4, 5, 6, ... and the counters balance |
| StratumLedger.AnswerKeeps | software/application/stratum.c:125-129 | a reply frees its slot, which held the share's own data, and counts the share, which was not counted before |
| StratumLedger.ReopenKeeps | software/application/stratum.c:191-191 | a new session forgets outstanding shares without unbalancing the counters |
| StratumLedger.AnswersBounded | software/application/dashboard.c:26-30 | accepted plus rejected never exceeds submitted, across sessions |
| StratumSession.CheckedShareIsGood | software/application/stratum.c:141-158 | a result that passed the recheck makes a submission whose rebuilt header hashes at or below the job's target |
| StratumSession.JobHeaderLayout | software/application/stratum.c:53-64 | the same of the header of a job |
| StratumSession.RecheckPasses | software/application/stratum.c:143-151 | the recheck never rejects what the result register shows while the loaded registers are mined |
| StratumSession.HeaderRechecks | software/application/stratum.c:35-175 | from any state of the miner, after a job change, every result shown in any range of the header passes the recheck |
| StratumSession.PollPasses | software/application/stratum.c:141-151 | every nonce that a poll reads in any range of the header passes the recheck |
| StratumSession.HeaderDelivers | software/application/stratum.c:35-175 | and after 256 ranges the acknowledged results are exactly the shares of the firmware's header over all nonce words, if and only if no range overflowed |
| StratumSession.RegistersOfRange | software/application/stratum.c:169-173 | the registers of a running session are those of one of the 256 ranges |
| StratumSession.Session.NextHeader | software/application/stratum.c:53-69 | succeeds exactly when an extranonce is left and the time decodes; then the extranonce is the next in order, header and registers are those of the job and it, in the first range, and nothing else changes |
| StratumSession.Session.ChangeDifficulty | software/application/stratum.c:73-77 | accepts exactly the admissible difficulties; sets the pending target to the exact one, and changes nothing else |
| StratumSession.Session.ChangeExtranonce | software/application/stratum.c:78-83 | accepts exactly a readable prefix and a size of 1 to 16; stops mining, drops the job and restarts the extranonces, and changes nothing else |
| StratumSession.CheckJob | software/application/stratum.c:87-104 | accepts exactly a non-empty id, fields of 32, 4, 4 and 8 bytes, and at most 32 branches of 32 bytes each |
| StratumSession.Session.NewJob | software/application/stratum.c:84-106 | accepts exactly a well-formed job once subscribed, which must be buildable if it is to be mined; the job takes the pending target, and a new header is begun exactly if authorized |
| StratumSession.Session.Subscribe | software/application/stratum.c:110-117 | accepted exactly once, with a readable prefix, a usable size and a request that is sent; nothing else changes |
| StratumSession.Session.Authorize | software/application/stratum.c:118-124 | accepted exactly once, after subscribing; an early job starts now |
| StratumSession.Session.ShareReply | software/application/stratum.c:125-131 | answers the slot that waits for the id, or changes nothing; a good reply that is waited for raises the accepted shares by one and a bad one the rejected ones |
| StratumSession.Session.HandleLine | software/application/stratum.c:70-137 | for each of the eight kinds of line exactly when the session goes on, and the whole state that it then has |
| StratumSession.Session.Submit | software/application/stratum.c:141-167 | submits exactly if the result is a share, a slot and an id are left and the send succeeds; then one share with the next id, the job's id and time, its extranonce and the swapped nonce |
| StratumSession.Session.ServiceResults | software/application/stratum.c:138-175 | succeeds exactly if, while mining, no overflow is seen, every result is a share, every send works, slots and ids suffice and, at the end of the last range, an extranonce is left; then one share per result in order, and the next range or header; a failing poll has sent a beginning of those |
| StratumSession.Session.ServiceMiner | software/application/stratum.c:138-175 | the same on the registers of a miner in a range of the session's header: the shares sent are the results acknowledged, in order, and the poll never fails because a result is not a share |
| StratumSession.Session.Open | software/application/stratum.c:191-192 | the reset gives a sound session at difficulty one, with nothing sent or used and the outstanding shares forgotten |
| StratumSession.Session.Dispatch | software/application/stratum.c:200-210 | a line is handled, a poll is serviced, and a timeout ends the session |
| StratumSession.Session.Handle | software/application/stratum.c:198-213 | for every event exactly when the session goes on; then it is live and in the state that the event leads to, and this state is added to the history |
| StratumSession.Session.Converse | software/application/stratum.c:198-213 | the states recorded are a run of the events up to the first that the session cannot go on after, and it ends exactly there; the shares sent are the results of the polls taken while mining, in order, with their ids, job and extranonce |
| StratumSession.Session.Serve | software/application/stratum.c:176-218 | a whole connection is such a conversation from a session just opened; it ends stopped, and every share ever submitted is good |
| StratumSession.RunSubmits | software/application/stratum.c:198-213 | over any run the shares sent are the results of its polls while mining, in order, and nothing else |
| StratumSession.TargetInForce | software/application/stratum.c:73-105 | after any event of a run, the job is that of the last notification and its target is the exact one of the last difficulty named before that notification, whatever was named since |
| StratumSession.InitialTargetInForce | software/application/stratum.c:191-192 | and difficulty one if none was named before it |

## Left out

- The control block and the assembly of lanes and collectors (`MinerControl.ControlStep`, `MiningBatch.SysStep`) are next-state
  functions over register records, not classes with fields: all their non-blocking assignments take effect together, and the
  model does not show the textual order of updates beyond which assignment wins.
- MiningBatch.LanesPartitionBatch: three lanes in clusters of two, as deployed; other lane counts, which use the generic
  `engine_work_count` without the divider, are not modelled.
- MinerLifecycle.StopSequenceSilences: takes the time from STOP to START as a number of clocks; `vTaskDelay(1)` gives no lower
  bound, and that parsing the job and hashing the header take more than 320 clocks is an assumption about the firmware.
- LostResults.OverflowGoesUnnoticed: rings of up to four entries (four are deployed), the all-ones target to which a small enough
  difficulty saturates, and a firmware as fast as the bus; instruction timing is not modelled.
- AXI write channel, byte strobes (all writes are full words), interrupt output, version and hash-counter registers, resets and
  clock domains; the DSP adders are additions modulo 2^32; one definition of the round constants and of the sigma functions, which
  `Sha256Constants` and `Sha256Logic` pin down, serves both tables of the source.
- Eeprom.Device.Write: bus waits and acknowledgements are folded into how many bytes reach the device and whether the driver sees
  success; a byte is written whole or not at all.
- SRecord.ParseLine: what a refused line leaves in the caller's record is not modelled; the loader does not use it.
- Bootloader.Loader.Boot: HyperRAM calibration, SPI setup, console output and the jump itself; RAM faults are a set of cells whose
  read-back fails, SPI faults a number of transfers that succeed.
- StratumSession.Session.HandleLine: lines are already parsed; JSON, sockets and buffers are left out, and so is what a malformed
  message leaves in `job` or `extra1` before the session ends.
- StratumSession.Session.Stop: only the firmware's own flag; the register writes of `stop` are the subject of
  `MinerLifecycle.StopSequenceSilences`.
- StratumSession.Session.Serve: timeouts, lost links and changed settings appear as one event that ends the session; the
  telemetry queue, the dashboard and the display fields of an event are left out, and the share counters are unbounded.
- FreeRTOS tasks, network drivers, sensors, the Python tools and the build scripts.
