# Device and engine models of the rax emulator

rax is a multi-architecture emulator written in Rust. This project models ten of its components in Dafny
and proves what each of them is for.

- **HPET** (`Hpet`): a timer block that samples its counter now and then and works out in closed form which
  comparators were passed. It is proved equal to a counter that advances one tick at a time.
- **AES and CBC** (`AesTables`, `AesField`, `AesSbox`, `AesColumns`, `AesCipher`, `AesDecrypt`, `AesKey`): the
  in-place decryptor is proved to undo the cipher of FIPS-197 for every legal key, and CBC decryption to undo CBC
  encryption.
- **Guest memory map** (`MemMap`, `MemRun`, `MemAccess`): a list of regions rebuilt by map, unmap and protect
  is proved to be a flat partial function from address to byte and permissions, over every run; page-wise
  virtual access is proved equal to byte-wise access, for writes with the exact condition.
- **Instruction-effect analyzer** (`AnalyzeBits`, `Analyze`, `AnalyzeSound`, `AnalyzeRun`, `AnalyzeAddress`,
  `AnalyzeExact`, `Analyzer`, `AnalyzeDiscipline`, `AnalyzeReads`, `AnalyzeClaims`): what it reports is proved true
  of the interpreter, with the exact condition under which each inference is right, and its reports complete.
- **AHCI** (`Dma`, `Scatter`, `Ahci`, `AhciDma`, `AhciLayout`, `AhciDriver`): scatter/gather DMA between guest memory
  and disk, down to the sectors a laid-out command names.
- **82077AA floppy controller** (`Fdc`, `FdcHost`): its byte protocol over every history of port accesses.
- **e1000** (`E1000Tx`, `E1000Frames`, `E1000Layout`, `E1000Driver`, `Microwire`): the transmit ring and the EEPROM.
- **Fixed-point square root** (`FixedPoint`): bounds on a truncated Newton iteration.
- **Context blobs** (`ContextCodec`, `ContextLayout`, `Context`): saving and restoring an engine.
- **Run loop** (`RunModel`, `RunLoop`, `RunLaws`): whole runs under arbitrary callbacks are those of a functional
  model, are safe, and end where the vCPU's own steps lead.

An object the source updates in place is a class here, proved against functions on values; the properties
are lemmas about those functions. `Arith` and `Common` hold what several models share. The clock, memory
allocation, the vCPU, page translation, callbacks and the state encoders are parameters.

## Findings

Where the code does not do what its documentation or the hardware promises, the model follows the code. For
each, a lemma or contract gives the exact condition and, where the condition does not show it at once, another
gives a concrete input that fails.

- HPET: a comparator written while the last sample lags behind the counter is compared against the
  unsampled past (`LateComparatorWrite`, `SafeWriteExact`; `OneShotGoesWrong`, `PeriodicGoesWrong`), and
  stopping the counter drops unsampled crossings (`StopDropsCrossing`; `StopsThatLose`). A
  configuration write, clearing a status bit and setting the counter between samples miss or repeat them in
  the same way (`SafeExact`, `StepExact`; `WritesThatDiffer`). The comment in
  `tick_at_counter` expects no wrap inside a window; the code is right with one.
- Memory map: a successful call strips the permissions of untouched regions to read, write and execute, and
  so has the intended effect exactly when they held no other bit (`MapEffect`, `UnmapEffect`,
  `ProtectEffect`; `PermissionBitLost`). Only a restored context can install other bits.
- Virtual writes: a page is translated once, so a write into the tables it goes through can differ from the
  byte-wise one. All writes up to some length agree exactly when none of them moves a byte of its own
  (`AgreesExactly`; `WriteMovingPage`).
- Analyzer: zero extension of a constant ignores the width it is extended from, a rotation through carry by
  nothing counts as the register itself, and a register read after it was written is reported as at the
  start unless it is cleared by an exclusive or with itself (`FineExact`; `ZeroExtendOfImmediate`,
  `RotateThroughCarry`, `ReadAfterWrite`). No lifter of the repository emits the rotation as
  an operand (`src/smir/lift/aarch64/alu.rs:87` maps it to a plain one), and the interpreter computes
  it with the carry taken as clear.
- Floppy: a span that runs past the end of the image is cut off in writing and padded with zeros in reading,
  so it does not read back (`ReadBackExact`; `PastTheEnd`). The status byte of a seek is shared by all drives,
  so reports name their own drives exactly when all unreported seeks are of the drive in it (`OwnExactly`,
  `TwoSeeks`; `SharedStatus`).
- Square root: for arguments above zero and below one half the truncated divisor is zero (`RootBounds`), and
  the n-body step reaches one where its wrapping sum of squares lands there (`DistanceRoot`; `FarApart`).
- e1000: the one-shot EEPROM read combines the word with the data bits written along with START
  (`BothWays`, `OrTransparent`; `DataBitsStay`).
- Context: bytes after a complete blob are ignored (`Trailing`). Missing permissions and padding of a region count
  as zero, so a blob cut off by eight bytes still restores, with other contents, exactly when its last region
  holds fewer than four bytes (`TruncatedExactly`; `RestoresTruncated`). A restored map is neither masked nor
  checked for alignment (`Restored`; `RestoresStray`). With an unaligned region every later map call fails
  (`DoMap`).
- Run loop: a backend that cannot step ignores `count` and `until` (`Run`).

## Model

| member | source | states |
|---|---|---|
| Hpet.CrossedIffWithinAdvance | src/devices/hpet.rs:414-422 | a comparator is crossed exactly when it lies 1 to n ticks ahead of the last sample, n being the advance, wrap-around included |
| Hpet.RearmIsNextMultiple | src/devices/hpet.rs:403-408 | a re-armed comparator is a whole number of periods on from where it was and 1 to `period` ticks ahead of the sample |
| Hpet.RearmPast | src/devices/hpet.rs:403-408 | the wrapping, 128-bit closed form counts whole periods from the comparator past tick n |
| Hpet.RearmStep | src/devices/hpet.rs:403-408 | re-arming past tick n-1 and clocking once more is re-arming past tick n |
| Hpet.SampleCellIsClocked | src/devices/hpet.rs:363-379 | for every advance below 2^64, one sample of a comparator leaves the comparator and status bit that single ticks leave, one-shot and periodic alike |
| Hpet.ClockedByCell | src/devices/hpet.rs:359-382 | stepping the whole board is stepping each comparator by itself, with the counter modulo 2^64 |
| Hpet.SampleRefinesClock | src/devices/hpet.rs:359-382 | a sample of the whole device equals stepping the counter tick by tick |
| Hpet.ClockedAdd | src/devices/hpet.rs:359-382 | m ticks then n ticks are m + n ticks |
| Hpet.SamplingScheduleIrrelevant | src/devices/hpet.rs:346-382 | any schedule of samples, wrapping the counter any number of times, ends where the tick-by-tick clock ends |
| Hpet.SampleTwice | src/devices/hpet.rs:359-382 | sampling on the way and then at the end is sampling at the end once |
| Hpet.LateComparatorWrite | src/devices/hpet.rs:319-335 | a comparator, one-shot or periodic and whatever its bit, written while the last sample lags is seen at a later sample as by hardware if and only if a test on the windows passes, and for a periodic timer crossed in the unsampled past only if it comes round to the same value |
| Hpet.SafeWriteExact | src/devices/hpet.rs:319-335 | the write is seen rightly at every later sample if and only if a test at the time of the write passes |
| Hpet.ComesRoundLater | src/devices/hpet.rs:403-408 | a re-arm that comes round to the comparator's own value does so at every later sample before the next wrap |
| Hpet.OneShotGoesWrong | src/devices/hpet.rs:319-335 | two concrete late writes: a past value fires, and an unsampled match is lost |
| Hpet.PeriodicGoesWrong | src/devices/hpet.rs:319-335 | a concrete late write of a period: the comparator ends at 24 where hardware has 4 |
| Hpet.LaterWindow | src/devices/hpet.rs:414-422 | the window after a later sample is the whole window less the earlier one |
| Hpet.StopDropsCrossing | src/devices/hpet.rs:249-255 | stopping the counter leaves the hardware's status bit exactly when it was up already or nothing enabled lay in the unsampled window, and the comparator too exactly when nothing did or it would have come round |
| Hpet.StopsThatLose | src/devices/hpet.rs:249-255 | a concrete one-shot match and a concrete periodic re-arm lost by a stop |
| Hpet.ConfigSafe | src/devices/hpet.rs:313-318 | a configuration write between samples gives what hardware has if and only if nothing lies in the unsampled window, or the timer stays enabled and re-arming before or after makes no difference, or it is switched on or off and firing would make none |
| Hpet.ClearSafe | src/devices/hpet.rs:292-295 | clearing a status bit between samples gives what hardware has if and only if the timer is disabled or its comparator lies outside the unsampled window |
| Hpet.SafeExact | src/devices/hpet.rs:292-338 | writing any register of a timer between samples gives what hardware has if and only if its test at the time of the write passes |
| Hpet.WritesThatDiffer | src/devices/hpet.rs:292-318 | concrete writes over an unsampled match: disabling loses it, enabling fires it, clearing lets it rise again |
| Hpet.StepExact | src/devices/hpet.rs:237-382 | any single event takes device and hardware to matching states if and only if its test passes, starting, stopping and setting the counter included |
| Hpet.StillExact | src/devices/hpet.rs:359-382 | the unsampled ticks leave a comparator and its bit as they are if and only if nothing enabled was crossed, or the bit was up and the re-arm came round |
| Hpet.StepRefines | src/devices/hpet.rs:237-382 | time, a sample or an event that passes its test takes device and hardware to matching states |
| Hpet.HistoryRefines | src/devices/hpet.rs:237-382 | over every history of time, samples and writes of comparators, configurations, routes, status bits, the counter and the enable bit whose events pass their tests, hardware is where the device would be if sampled now |
| Hpet.FreshPasses | src/devices/hpet.rs:284-344 | right after a sample every register write passes |
| Hpet.RaiseBit | src/devices/hpet.rs:373-374 | raising a status bit raises that timer's and no other |
| Hpet.AnyPending | src/devices/hpet.rs:381-387 | the status word is non-zero exactly when some timer's bit is up |
| Hpet.Hpet.constructor | src/devices/hpet.rs:177-187 | a new device is halted at zero with no timer enabled or pending |
| Hpet.Hpet.SampleTimer | src/devices/hpet.rs:363-379 | the loop body updates one comparator and its bit as the closed form says and leaves the others alone |
| Hpet.Hpet.SampleTimers | src/devices/hpet.rs:363-379 | the loop updates all three comparators as the closed form says |
| Hpet.Hpet.TickAtCounter | src/devices/hpet.rs:359-382 | the loop leaves the board that single ticks leave and answers whether any bit is up |
| Hpet.Hpet.Tick | src/devices/hpet.rs:351-357 | a running device is clocked up to the counter's reading; a halted one changes nothing and answers no |
| Hpet.Hpet.SetRunning | src/devices/hpet.rs:237-256 | starting and stopping never move the counter, and the last sample moves to the boundary |
| Hpet.Hpet.WriteComparator | src/devices/hpet.rs:319-335 | in periodic mode the period follows the write and the accumulator-load bit is spent; other timers stay |
| Hpet.Hpet.WriteConfig | src/devices/hpet.rs:313-318 | capability bits stay, writable bits follow and other timers stay |
| Hpet.ConfiguredIs | src/devices/hpet.rs:79-102 | bit 2 of a written configuration enables the timer, bit 3 makes it periodic, bit 6 arms the accumulator load, and the capability bits 4, 5 and 15 cannot be written |
| Hpet.Hpet.ClearStatusBits | src/devices/hpet.rs:292-295 | exactly the status bits set in the value go down |
| Hpet.Hpet.WriteMainCounter | src/devices/hpet.rs:296-305 | counter and last sample take the value and no comparator changes |
| AesTables.InvSboxUndoes | src/devices/crypto.rs:12-38 | the inverse table undoes the substitution table on all 256 bytes |
| AesTables.SboxUndoes | src/devices/crypto.rs:12-38 | and the other way round |
| AesTables.InvSboxTable | src/devices/crypto.rs:32-38 | the loop over the table fills an array with its true inverse |
| AesSbox.SboxIsInverse | src/devices/crypto.rs:12-30 | every table entry is the affine map of FIPS-197 section 5.1.1 applied to the inverse of its index in GF(2^8), and entry zero to zero |
| AesField.Gmul | src/devices/crypto.rs:51-65 | the shift-and-add loop computes the product in GF(2^8) |
| AesField.XtimeLinear | src/devices/crypto.rs:41-48 | doubling in the field is additive |
| AesField.MulLinear | src/devices/crypto.rs:51-65 | multiplication by any fixed element is additive |
| AesField.MulIsPolynomialProduct | src/devices/crypto.rs:51-65 | the product is the product of the two polynomials over GF(2), divided by x^8 + x^4 + x^3 + x + 1 |
| AesColumns.InvMixUndoesMix | src/devices/crypto.rs:170-182 | InvMixColumns undoes the MixColumns of FIPS-197 section 5.1.3 |
| AesColumns.MixUndoesInvMix | src/devices/crypto.rs:170-182 | and the other way round |
| AesCipher.ShiftRowsUndone | src/devices/crypto.rs:149-168 | InvShiftRows and ShiftRows undo each other |
| AesCipher.SubBytesUndone | src/devices/crypto.rs:118-120 | the byte substitutions undo each other |
| AesCipher.MixColumnsUndone | src/devices/crypto.rs:170-182 | the column maps undo each other on a whole state |
| AesCipher.DownUndoesUp | src/devices/crypto.rs:113-129 | rounds run down the keys undo rounds run up them, however many keys there are |
| AesCipher.ShapeUndone | src/devices/crypto.rs:113-129 | whitening, full rounds, final round and whitening are undone by the same shape run backwards |
| AesCipher.CipherUndone | src/devices/crypto.rs:113-129 | under any round keys the inverse cipher undoes the forward cipher of FIPS-197 section 5.1, and the forward cipher the inverse |
| AesCipher.ShiftedByte | src/devices/crypto.rs:149-168 | row r of column c comes from column c + r, as section 5.1.2 of FIPS-197 has it |
| AesCipher.RoundColumn | src/devices/crypto.rs:117-122 | each column of a forward round, byte by byte: which bytes are substituted, how doubling mixes them and which key byte is added |
| AesCipher.TraceUndone | src/devices/crypto.rs:113-129 | whatever the rounds of section 5.1 of FIPS-197, with the keys in order, make of a block, the inverse cipher takes back |
| AesDecrypt.AddRoundKey | src/devices/crypto.rs:142-146 | in place, every byte is combined with its key byte |
| AesDecrypt.ShiftRowsBack | src/devices/crypto.rs:149-168 | the four in-place rotations are InvShiftRows |
| AesDecrypt.Substitute | src/devices/crypto.rs:118-120 | in place, every byte is replaced through a table of any function |
| AesDecrypt.MixColumnsBack | src/devices/crypto.rs:170-182 | in place, every column is multiplied by the inverse matrix |
| AesDecrypt.RoundBack | src/devices/crypto.rs:117-122 | one in-place round is one round of the inverse cipher |
| AesDecrypt.RoundsBack | src/devices/crypto.rs:113-129 | the loop over the rounds is the downward recursion |
| AesDecrypt.DecryptBlock | src/devices/crypto.rs:113-129 | the block ends as the inverse cipher of what it was |
| AesDecrypt.ChainingUndone | src/devices/crypto.rs:187-202 | CBC decryption undoes CBC encryption for any pair of inverse block functions and data of any length |
| AesDecrypt.CbcUndone | src/devices/crypto.rs:187-202 | so it does for AES under any round keys |
| AesDecrypt.CbcBlock | src/devices/crypto.rs:187-202 | plaintext block i is the decrypted block i combined with ciphertext block i-1, or the IV |
| AesDecrypt.CbcSuffix | src/devices/crypto.rs:187-202 | decrypting from block i on depends on the ciphertext block before it only |
| AesDecrypt.CbcDecrypt | src/devices/crypto.rs:187-202 | the buffer is decrypted in place though each ciphertext block is overwritten before it is needed, and a tail shorter than a block stays |
| AesKey.WordsRecur | src/devices/crypto.rs:76-109 | each word of the schedule is the one nk places before it and its feed |
| AesKey.SchedulesMeet | src/devices/crypto.rs:76-109 | two schedules that agree on nk words in a row agree everywhere before |
| AesKey.ScheduleDeterminesKey | src/devices/crypto.rs:76-109 | the recurrence runs backwards: no two keys share nk words of schedule in a row |
| AesKey.KeyByte | src/devices/crypto.rs:86-88 | the schedule begins with the key itself |
| AesKey.NextFeed | src/devices/crypto.rs:89-97 | the loop body gives the feed of the word, and keeps its running round constant equal to the power of x that the word index asks for |
| AesKey.ExpandWords | src/devices/crypto.rs:84-99 | the loop fills the word array with the schedule |
| AesKey.PackKeys | src/devices/crypto.rs:100-107 | words are packed four to a round key, big-endian |
| AesKey.NewKey | src/devices/crypto.rs:76-109 | keys of 16, 24 or 32 bytes give the round keys of the standard, all others none |
| AesKey.RoundCounts | src/devices/crypto.rs:76-84 | keys of 16, 24 and 32 bytes, and no others, have a schedule, for 10, 12 and 14 rounds |
| AesKey.WordAtRound | src/devices/crypto.rs:89-98 | a word that begins a round, byte by byte: the word nk before it, the substituted bytes of the word before it each moved up by one, and a power of x in the first |
| AesKey.WordInRound | src/devices/crypto.rs:89-98 | any other word, byte by byte: the word before it is substituted half way through the rounds of a 32-byte key and only there |
| AesKey.RoundKeyByte | src/devices/crypto.rs:100-107 | byte m of round key r is byte m % 4 of word 4r + m / 4 |
| AesKey.A1Word4 | src/devices/crypto.rs:89-98 | word 4 of the key of FIPS-197 appendix A.1 is a0fafe17 |
| AesKey.DecryptUndoesEncrypt | src/devices/crypto.rs:76-129 | for every key of a legal length and every block, decryption with the expanded key undoes encryption, and the reverse |
| Dma.AgreeRead | src/devices/virtio/mod.rs:163-174 | reads see only the bytes they cover |
| Dma.WriteElsewhere | src/devices/virtio/mod.rs:176-187 | a write changes nothing outside its range |
| Dma.LeToLe | src/devices/ahci.rs:838-840 | little-endian bytes of a value give it back |
| MemMap.LookupBuilt | capi/src/mem.rs:189-244 | a rebuilt map covers what the specs cover with masked permissions; mapped bytes survive and all others are zero |
| MemMap.BuiltIsValid | capi/src/mem.rs:167-267 | rebuilding from well-formed specs keeps the regions sorted, disjoint, aligned and non-empty |
| MemMap.CarvePerm | capi/src/mem.rs:296-348 | splitting regions changes permissions on exactly the range |
| MemMap.CarveSound | capi/src/mem.rs:296-348 | the pieces of any list in order stay in order, apart and non-empty |
| MemMap.CarveWellFormed | capi/src/mem.rs:296-348 | the pieces of an aligned list stay sorted, disjoint, page-aligned and non-empty |
| MemMap.SortSorted | capi/src/mem.rs:168-168 | sorting leaves a well-formed list as it is |
| MemMap.InsertFits | capi/src/mem.rs:167-184 | a new region passes validation exactly when every address of it is free |
| MemMap.InsertPerm | capi/src/mem.rs:280-282 | a region on free addresses adds its permissions there and nowhere else |
| MemMap.MapView | capi/src/mem.rs:270-283 | the map with a region added is the flat memory with zeroed bytes added |
| MemMap.CarveView | capi/src/mem.rs:286-350 | the carved, rebuilt map is the flat memory with the range removed, or with new permissions on it |
| MemMap.MapApplied | capi/src/mem.rs:270-283 | the sorted list is well formed exactly when the addresses were free, and then stands for the intended memory |
| MemMap.CarveApplied | capi/src/mem.rs:286-350 | a carved list is in order; when it is well formed, as always on an aligned map, it stands for the intended memory |
| MemMap.CarvedToNothing | capi/src/mem.rs:312-314 | nothing is left of the specs exactly when the range covers everything mapped |
| MemMap.Faultless | capi/src/mem.rs:170-187 | validation finds no fault in a non-empty well-formed list |
| MemMap.InsertKeepsFault | capi/src/mem.rs:167-187 | with an unaligned region in the map no list with a new region is well formed |
| MemMap.Engine.RangeMapped | capi/src/mem.rs:62-85 | over any sorted, disjoint regions, aligned or not: true exactly when every address of the range lies in some region, across any number of adjacent regions and with an overflowing end |
| MemMap.Engine.Validate | capi/src/mem.rs:170-187 | succeeds exactly on non-empty well-formed lists; an aligned list fails for overlap only |
| MemMap.Engine.Overlay | capi/src/mem.rs:231-244 | a fresh backing holds the old byte wherever one was mapped and zero elsewhere |
| MemMap.Engine.FindBacking | capi/src/mem.rs:193-193 | finds a region of the same base and size exactly when there is one |
| MemMap.Engine.BuildRegions | capi/src/mem.rs:190-215 | reused backings are already right and the others are listed; allocation is asked for only when one is needed |
| MemMap.Engine.FillFresh | capi/src/mem.rs:231-244 | filling the listed ones completes the rebuilt map |
| MemMap.Engine.ApplySpecs | capi/src/mem.rs:167-267 | ends with the map the specs describe, or fails before anything has changed, with the status the validity of the specs and the host decide |
| MemMap.Engine.DoMap | capi/src/mem.rs:270-283 | from any map a restore can install: zeroed bytes with the masked permissions on addresses that were all free; the exact status, which is a failure whenever some region is unaligned; unchanged on failure |
| MemMap.Engine.UnmapSpecs | capi/src/mem.rs:298-311 | the loop leaves the pieces outside the range |
| MemMap.Engine.ProtectSpecs | capi/src/mem.rs:332-348 | the loop leaves every piece, with new permissions inside the range |
| MemMap.Engine.PlanUnmap | capi/src/mem.rs:286-314 | refused exactly for a bad range, one not fully mapped, or one that would leave nothing |
| MemMap.Engine.PlanProtect | capi/src/mem.rs:319-348 | refused exactly for a bad range or one not fully mapped |
| MemMap.Engine.DoUnmap | capi/src/mem.rs:286-316 | from any such map: exactly the range goes and every other byte survives splitting; the exact status; unchanged on failure, aligned on success |
| MemMap.Engine.DoProtect | capi/src/mem.rs:319-350 | from any such map: no byte changes and permissions change on exactly the range; the exact status; unchanged on failure, aligned on success |
| MemRun.MapEffect | capi/src/mem.rs:270-283 | a map call has exactly the intended effect if and only if every permission outside its range was within read, write and execute |
| MemRun.UnmapEffect | capi/src/mem.rs:286-316 | so has an unmap call |
| MemRun.ProtectEffect | capi/src/mem.rs:319-350 | so has a protect call |
| MemRun.OutcomePlain | capi/src/mem.rs:194-212 | whatever the permissions were, after a successful call all are within read, write and execute |
| MemRun.IntendedExactly | capi/src/mem.rs:194-212 | the condition for all three calls at once |
| MemRun.Step | capi/src/mem.rs:270-350 | one call, from any map a restore can install: on an aligned map it answers and acts as a function of the flat memory alone unless the host refuses; its effect is the intended one exactly under that condition |
| MemRun.AnswersOk | capi/src/mem.rs:270-350 | when each call succeeds, in numbers: whole pages of 4096 bytes, and addresses all free, or all mapped with something left over, or all mapped |
| MemRun.PermissionBitLost | capi/src/mem.rs:286-316 | a concrete page with permissions 15 comes out of a neighbour's unmapping with 7 |
| MemRun.Run | capi/src/mem.rs:167-350 | every run from any map a restore can install keeps the regions in order, aligned from the first success on, and is, call by call, a run of the flat memory |
| MemRun.PlainFromThere | capi/src/mem.rs:167-350 | from plain permissions on, so from the first success on, every successful call of a run has exactly the intended effect |
| MemAccess.PatchedView | capi/src/mem.rs:102-115 | a store over several regions is one contiguous store in the flat memory |
| MemAccess.PhysRead | capi/src/mem.rs:89-100 | succeeds exactly on mapped ranges and returns their bytes in order |
| MemAccess.PhysWrite | capi/src/mem.rs:104-115 | succeeds exactly on mapped ranges and changes exactly their bytes |
| MemAccess.FoldRun | capi/src/mem.rs:139-160 | steps that each succeed can be joined to what was done before them |
| MemAccess.StoreInPage | capi/src/mem.rs:139-160 | inside one chunk whose bytes keep their places a store at once is the store byte by byte |
| MemAccess.LoadInPage | capi/src/mem.rs:139-160 | inside one page a load at once is the load byte by byte |
| MemAccess.WriteFails | capi/src/mem.rs:139-158 | where a page-wise write whose bytes keep their places fails, the byte-wise one fails with the same status |
| MemAccess.ReadFails | capi/src/mem.rs:139-158 | where a page-wise read fails the byte-wise one fails with the same status |
| MemAccess.ChunkSize | capi/src/mem.rs:144-145 | a chunk makes progress, stays in its page and does not pass the end of the address space |
| MemAccess.WriteTurn | capi/src/mem.rs:139-160 | one turn of the loop, its bytes in place, extends the byte-wise write by a chunk or fails as that does |
| MemAccess.ChunkStart | capi/src/mem.rs:139-145 | the byte a chunk begins with: in the same page, and at a page boundary unless it is the first |
| MemAccess.InPlaceAgrees | capi/src/mem.rs:128-162 | a write whose every byte has the place it had as its chunk began ends as the byte-wise write does |
| MemAccess.PageReaches | capi/src/mem.rs:139-160 | up to the first byte that moves, the page-wise write comes to each chunk with the memory of the byte-wise one |
| MemAccess.MovedDisagrees | capi/src/mem.rs:139-160 | cut just after the first byte that moves, with that byte unlike the one at its page-wise place, a write does not end as the byte-wise one does |
| MemAccess.AgreesExactly | capi/src/mem.rs:128-162 | for any tables, memory, address and length, writing page by page agrees with writing byte by byte for every buffer up to that length if and only if no such buffer moves a byte of its own |
| MemAccess.TablesApart | capi/src/mem.rs:118-123 | no write moves its own bytes when the tables lie apart from everything the addresses translate to at the start |
| MemAccess.ReadTurn | capi/src/mem.rs:139-160 | one turn of the loop extends the byte-wise read by a chunk or shows how it fails |
| MemAccess.VirtWrite | capi/src/mem.rs:128-162 | through page tables that lie in the memory written: for every table, memory and buffer the loop leaves what the page-wise write leaves and answers as it does, and where no byte moves that is translating and writing one byte at a time, each through the tables as left by the bytes before, aliased pages included; a failure has the byte-wise status and leaves a shorter prefix written |
| MemAccess.MovingPage | capi/src/mem.rs:139-160 | under a table kept in the first byte of the page, the page-wise and the byte-wise write of 1, 2 in full |
| MemAccess.WriteMovingPage | capi/src/mem.rs:139-160 | the same write through the loop itself: the 2 lands beside the 1, where byte by byte it lands on the next page |
| MemAccess.VirtRead | capi/src/mem.rs:128-162 | equals translating and reading one byte at a time, with the same failures |
| Scatter.AddressAt | src/devices/ahci.rs:822-835 | the address list of a descriptor table holds, at segment i offset k, that segment's k-th address |
| Scatter.Reach | src/devices/ahci.rs:747-760 | a transfer never passes its own length |
| Scatter.ReachesAll | src/devices/ahci.rs:747-760 | it moves the smaller of its length and that of the list, exactly when all addresses it needs lie inside memory |
| Scatter.ReachBelow | src/devices/ahci.rs:747-760 | whatever it reaches lies inside memory |
| Scatter.NextSegment | src/devices/ahci.rs:747-759 | one turn of the transfer loop: the next segment's addresses follow on, and the transfer goes on exactly when they lie inside memory |
| Scatter.SpreadElsewhere | src/devices/ahci.rs:741-761 | scattering changes no address outside the list |
| Scatter.SpreadAt | src/devices/ahci.rs:741-761 | over distinct addresses byte k lands at address k |
| Scatter.PickedOfSpread | src/devices/ahci.rs:741-784 | gathering what was scattered over distinct addresses gives it back |
| Scatter.SpreadRun | src/devices/ahci.rs:747-760 | a contiguous store of one segment is the byte-wise one |
| Ahci.SegmentsStop | src/devices/ahci.rs:822-835 | the table ends at the first descriptor outside memory |
| Ahci.CollectedRun | src/devices/ahci.rs:764-784 | segment-wise stores to the disk join into one store of the gathered bytes |
| Ahci.Controller.Deliver | src/devices/ahci.rs:741-761 | the loop scatters the data as far as the list reaches and counts exactly when it reaches far enough |
| Ahci.Controller.Collect | src/devices/ahci.rs:764-784 | the loop gathers onto the disk as far as the list reaches |
| Ahci.Controller.PrdtSegments | src/devices/ahci.rs:822-835 | the loop reads the descriptors up to the first outside memory |
| Ahci.Controller.Transfer | src/devices/ahci.rs:741-784 | reads and writes do what the specification of the command says |
| Ahci.Controller.Dispatch | src/devices/ahci.rs:721-727 | a decoded command does what its opcode says, and an unknown one nothing |
| Ahci.Controller.Execute | src/devices/ahci.rs:699-727 | a slot whose structures cannot be read does nothing |
| Ahci.Controller.Complete | src/devices/ahci.rs:838-877 | count, task file, response FIS and causes of a success or an abort |
| Ahci.Controller.RunSlot | src/devices/ahci.rs:699-738 | what a slot does to memory and disk is a function of the structures in memory |
| Ahci.Controller.RunIssued | src/devices/ahci.rs:684-695 | the loop runs the issued slots in order and announces them |
| Ahci.Controller.ProcessCommands | src/devices/ahci.rs:673-696 | issued slots run in order, their bits clear and a driver that enabled the response cause is interrupted; a stopped port, or one with nothing issued, changes nothing |
| AhciLayout.HeaderReadsBack | src/devices/ahci.rs:288-302 | a command header laid out for any table length and address reads back, whatever its flags, count and reserved bytes |
| AhciLayout.FisReadsBack | src/devices/ahci.rs:329-346 | a register FIS laid out for any command, device, 48-bit LBA and count reads back |
| AhciLayout.PrdReadsBack | src/devices/ahci.rs:362-375 | a region descriptor of 1 byte to 4 MiB reads back, whatever its flags |
| AhciLayout.SegmentsLaidOut | src/devices/ahci.rs:822-835 | a table laid out in memory reads back segment by segment |
| AhciLayout.DecodesAsLaidOut | src/devices/ahci.rs:699-719 | a whole command laid out in memory is the command the engine decodes |
| AhciDma.SegmentsFrame | src/devices/ahci.rs:822-835 | the table depends on the memory it occupies only |
| AhciDma.DecodeFrame | src/devices/ahci.rs:699-719 | a slot decodes to the same command whatever happens elsewhere in memory |
| AhciDma.CountExact | src/devices/ahci.rs:741-784 | the count is the smaller of the transfer's length and that of the list, reported exactly when all needed addresses lie in memory |
| AhciDma.DiskOutside | src/devices/ahci.rs:764-784 | no slot changes a disk byte outside the range of the WRITE DMA EXT it holds |
| AhciDma.CountReported | src/devices/ahci.rs:838-851 | the header's second word holds the count after completion |
| AhciDma.HeaderCounts | src/devices/ahci.rs:699-851 | a transfer whose list is short, long or exact completes without error exactly when the addresses it needs lie in memory, and then its header holds the smaller of the two lengths |
| AhciDma.CompletedElsewhere | src/devices/ahci.rs:846-877 | completion writes the count and the FIS and nothing else |
| AhciDma.PerformsWrite | src/devices/ahci.rs:764-784 | a decoded, covered write stores the gathered bytes and moves all of them |
| AhciDma.PerformsRead | src/devices/ahci.rs:741-761 | a decoded, covered read scatters the sectors and moves all of them |
| AhciDma.SpreadSurvives | src/devices/ahci.rs:846-877 | bytes scattered over distinct addresses clear of the completion are there after it |
| AhciDma.WriteRuns | src/devices/ahci.rs:764-784 | a covered write reports its whole length and stores the gathered bytes |
| AhciDma.ReadRuns | src/devices/ahci.rs:741-761 | a covered read reports its whole length and scatters the sectors |
| AhciDma.ReadDelivers | src/devices/ahci.rs:741-761 | over distinct addresses clear of the completion, a read delivers exactly the disk bytes |
| AhciDma.StillIssued | src/devices/ahci.rs:699-719 | a write that leaves the read's structures alone leaves the read as it was set up |
| AhciDma.WriteThenRead | src/devices/ahci.rs:699-835 | a write through one table and a read of the same sectors through another deliver the same bytes, however either is split; both report the whole length and other disk bytes stay |
| AhciDriver.LaidIsFound | src/devices/ahci.rs:699-719 | a request laid out in a slot, 32 bytes to a header and the descriptors 128 bytes into the table, is the one the engine finds there |
| AhciDriver.BoundsOf | src/devices/ahci.rs:808-818 | a request is accepted exactly when its last sector lies on the disk, and then takes 512 bytes for each sector from 512 times its address on, a count of zero standing for 65536 |
| AhciDriver.BoundsFollow | src/devices/ahci.rs:808-818 | sector 0 begins the disk, and a request ends where one for the sectors after it begins |
| AhciDriver.SectorsRead | src/devices/ahci.rs:741-761 | READ DMA EXT of n sectors from lba: the addresses of the list, in order, hold disk bytes 512 lba up to 512 (lba + n); the count is 512 n and the disk stays |
| AhciDriver.SectorsWritten | src/devices/ahci.rs:764-784 | WRITE DMA EXT: those disk bytes are what the list held and no other changes |
| AhciDriver.SectorsRefused | src/devices/ahci.rs:808-818 | a request past the end of the disk fails and moves nothing |
| AhciDriver.OthersRefused | src/devices/ahci.rs:721-727 | so does any other command but IDENTIFY DEVICE |
| AhciDriver.Identified | src/devices/ahci.rs:787-804 | IDENTIFY DEVICE fills the list with the identify block |
| AhciDriver.SectorsOutside | src/devices/ahci.rs:764-784 | however its list falls short, a write changes no disk byte outside its sectors, and no other command changes any |
| AhciDriver.StaysInSlot | src/devices/ahci.rs:699-719 | a request stays in its slot while the memory of its structures does |
| AhciDriver.SectorsCarried | src/devices/ahci.rs:741-784 | a write of n sectors from lba and then a read of the same carry the bytes of one list to the other, and the disk holds them there |
| AhciDriver.Responds | src/devices/ahci.rs:846-877 | every slot answers with a register FIS at PxFB + 0x40: type 34, interrupt bit, status 40, or 41 with error 04 |
| AhciDriver.RunPort | src/devices/ahci.rs:673-696 | a started port in the numbers of its registers: which bits have to be up for the issued slots to run and the driver to be interrupted; otherwise nothing changes |
| Fdc.ChsInjective | src/devices/fdc.rs:269-276 | no two sectors share an offset |
| Fdc.ChsSurjective | src/devices/fdc.rs:269-276 | every sector of the image has an address |
| Fdc.DiskOrder | src/devices/fdc.rs:269-276 | the image is in disk order: sector 1 of head 0 of cylinder 0 at 0, each sector of a track 512 after the one before, then the other head, then the next cylinder, to 1474560 |
| Fdc.LengthTable | src/devices/fdc.rs:410-428 | how many parameters each of the 32 opcodes takes |
| Fdc.SpanOfOverlaid | src/devices/fdc.rs:631-722 | reading back a stored span gives its bytes, with zeros past the end of the image |
| Fdc.ReadBackExact | src/devices/fdc.rs:631-722 | every span written reads back as it was exactly when it is empty or lies inside the image |
| Fdc.FirstFrom | src/devices/fdc.rs:591-598 | the drive reported is the first with a finished seek |
| Fdc.Fdc.constructor | src/devices/fdc.rs:183-224 | a new controller is idle with the image padded or cut to size |
| Fdc.Fdc.Recalibrate | src/devices/fdc.rs:546-557 | the drive comes to cylinder 0 and has a seek to report |
| Fdc.Fdc.Seek | src/devices/fdc.rs:559-574 | the drive comes to the cylinder asked for, at most the last, and has a seek to report |
| Fdc.Fdc.SenseInterrupt | src/devices/fdc.rs:576-614 | reset reports first, then the first finished seek, then an error; the interrupt clears with the last |
| Fdc.Fdc.SenseDriveStatus | src/devices/fdc.rs:529-544 | ST3 of the drive asked about |
| Fdc.Fdc.Fetch | src/devices/fdc.rs:651-659 | the sector loop returns the span, zeros past the end |
| Fdc.Fdc.ReadData | src/devices/fdc.rs:631-672 | a bad address is refused with no data, else the whole span waits for the host |
| Fdc.Fdc.WriteData | src/devices/fdc.rs:674-714 | a bad address or write protection is refused, else a staging buffer of the span waits for the host |
| Fdc.Fdc.CommitWrite | src/devices/fdc.rs:717-722 | the staged bytes reach the image as far as it goes |
| Fdc.Fdc.FormatTrack | src/devices/fdc.rs:724-743 | the track under the head is filled and no other byte changes |
| Fdc.Fdc.Retain | src/devices/fdc.rs:491-506 | SPECIFY and CONFIGURE keep their parameters and answer nothing |
| Fdc.Fdc.Housekeep | src/devices/fdc.rs:438-455 | each of the commands that move no data leads to its own phase, drive positions and answer |
| Fdc.Fdc.Operate | src/devices/fdc.rs:438-455 | the commands that reach for a sector or describe the controller leave the drives where they are |
| Fdc.Fdc.Execute | src/devices/fdc.rs:438-455 | a command leads exactly where its opcode and parameters say: phase and length, drives, answer, data waiting; only FORMAT touches the image |
| Fdc.Fdc.ReadMsr | src/devices/fdc.rs:324-355 | bit 7 always, direction in bit 6, execution in bit 5, busy in bit 4, and a bit for each finished seek |
| Fdc.Fdc.ReadFifo | src/devices/fdc.rs:359-381 | hands out the next data or result byte and moves on by one; in other phases nothing changes |
| Fdc.Fdc.StartCommand | src/devices/fdc.rs:410-435 | a command without parameters executes, any other waits for the number it needs |
| Fdc.Fdc.TakeParameter | src/devices/fdc.rs:385-399 | parameters gather in order and the last one executes the command; FORMAT fills the track under the head its parameters select |
| Fdc.Fdc.TakeData | src/devices/fdc.rs:385-407 | bytes are staged in order and only the last one reaches the image |
| Fdc.Fdc.WriteFifo | src/devices/fdc.rs:385-407 | what a byte does in each phase; against the direction bit nothing at all |
| Fdc.Fdc.WriteDor | src/devices/fdc.rs:280-320 | entering reset parks the protocol, leaving it pends four reports; neither reaches the image |
| FdcHost.Read | src/devices/fdc.rs:759-770 | what each port reads as; only the FIFO moves on |
| FdcHost.Write | src/devices/fdc.rs:772-782 | only the last byte of a write or of FORMAT reaches the image; other ports leave protocol and drives alone |
| FdcHost.Apply | src/devices/fdc.rs:759-782 | any port access keeps the controller valid and changes the image only as allowed |
| FdcHost.Replay | src/devices/fdc.rs:280-455 | over every history of port accesses cursors stay inside their buffers, the image keeps its size and changes only at those two moments, and accesses in the wrong direction change nothing |
| FdcHost.Turn | src/devices/fdc.rs:324-435 | an access in the direction of the status register takes exactly one byte off what is owed |
| FdcHost.Converse | src/devices/fdc.rs:324-487 | for every command byte, a host that follows the direction bit is back at idle after exactly 1 + parameters + data + results bytes |
| FdcHost.Issue | src/devices/fdc.rs:385-435 | a command byte and its parameters lead where the command says |
| FdcHost.Stage | src/devices/fdc.rs:385-407 | short of the last byte nothing reaches the image |
| FdcHost.Stream | src/devices/fdc.rs:385-407 | the streamed bytes are in the image and seven result bytes wait |
| FdcHost.Drain | src/devices/fdc.rs:359-381 | the result bytes in order, then idle |
| FdcHost.Collect | src/devices/fdc.rs:359-381 | the data bytes in order, then the results |
| FdcHost.WriteThenRead | src/devices/fdc.rs:631-722 | WRITE DATA, its bytes and result, then READ DATA with the same parameters returns the streamed bytes when the span lies inside the image, and zeros past its end; every other image byte is as before |
| FdcHost.OpcodeIs | src/devices/fdc.rs:438-440 | the low five bits of a command byte are its opcode |
| FdcHost.ReadSectors | src/devices/fdc.rs:631-672 | READ DATA for any drive, head, cylinder and sectors of a track: the image bytes from 512 (36 c + 18 h + r - 1) on, and the seven result bytes in full |
| FdcHost.WriteSectors | src/devices/fdc.rs:674-722 | WRITE DATA puts its bytes there and nowhere else, with the same result bytes |
| FdcHost.FormatAt | src/devices/fdc.rs:724-743 | SEEK and FORMAT TRACK fill that track and nothing else |
| FdcHost.StatusAfterSeek | src/devices/fdc.rs:529-574 | after a SEEK, SENSE DRIVE STATUS says ready, head, drive and write protection, and track 0 exactly when it was sought |
| FdcHost.StatusAfterRecalibrate | src/devices/fdc.rs:529-557 | after RECALIBRATE it says track 0 |
| FdcHost.Version | src/devices/fdc.rs:438-455 | VERSION answers 90 |
| FdcHost.PastTheEnd | src/devices/fdc.rs:631-722 | a concrete accepted span past the end of the image: eighteen sectors of ones come back as one sector of ones and zeros |
| FdcHost.ResetInWrite | src/devices/fdc.rs:280-320 | a reset before the last byte of a write leaves the image as it was |
| FdcHost.Sense | src/devices/fdc.rs:576-614 | SENSE INTERRUPT answers for the oldest thing to report and forgets it |
| FdcHost.SensesOne | src/devices/fdc.rs:576-614 | one sense takes the first of the expected reports off the list, and with nothing outstanding says so |
| FdcHost.SenseAll | src/devices/fdc.rs:576-614 | sensing until nothing is left gives exactly the reports expected, in order: resets first, then each finished seek with the cylinder of its drive, and drives stay where they are |
| FdcHost.SeekThenSense | src/devices/fdc.rs:559-629 | from any idle controller, one of the reports after a SEEK names the drive, head and cylinder sought, at most the last, and READ ID finds the head there; with nothing outstanding before it is the only report |
| FdcHost.OwnExactly | src/devices/fdc.rs:546-614 | every report of a finished seek names its own drive if and only if every drive with one unreported is the drive in the shared status byte |
| FdcHost.TwoSeeks | src/devices/fdc.rs:546-614 | two seeks with no sense between them report their own drives if and only if both were of the same one |
| FdcHost.SharedStatus | src/devices/fdc.rs:546-614 | a concrete pair of seeks whose two reports both name the second drive |
| FdcHost.ResetReports | src/devices/fdc.rs:298-309 | out of reset there are four reports, C0 to C3, and then none |
| E1000Tx.Parse | src/devices/e1000.rs:687-727 | only a descriptor that names a buffer can end a packet |
| E1000Layout.LegacyReadsBack | src/devices/e1000.rs:717-727 | a legacy descriptor laid out for any address, 16-bit length and command bits reads back: bit 0 ends a packet, bit 3 asks for a report |
| E1000Layout.ExtendedReadsBack | src/devices/e1000.rs:692-716 | an extended data descriptor, bit 5 of the command set, reads back with its 20-bit length; of any other type it names no buffer and ends no packet |
| E1000Layout.CommandBits | src/devices/e1000.rs:224-235 | end of packet, report status and the extended format are bits 0, 3 and 5 of the command byte, whatever the others are |
| E1000Tx.StepsAdd | src/devices/e1000.rs:678-738 | walking m and then n descriptors is walking m + n, a stuck walk included |
| E1000Tx.WalkIsSteps | src/devices/e1000.rs:676-738 | from an index in the ring the guard never cuts a walk short |
| E1000Tx.StepsHead | src/devices/e1000.rs:736-738 | the head ends at the tail or at a descriptor that cannot be read |
| E1000Tx.BatchingIrrelevant | src/devices/e1000.rs:648-746 | for any descriptor function that advances the head, two kicks along the way are one |
| E1000Tx.KicksBatch | src/devices/e1000.rs:648-746 | with b on the way from head to c, kicking to b and then c leaves the same head, queue, partial frame, memory and interrupt cause as one kick to c |
| E1000Tx.Transmitter.AppendTxData | src/devices/e1000.rs:749-763 | a buffer that is empty, would overrun the cap or cannot be read adds nothing |
| E1000Tx.Transmitter.FinishTxFrame | src/devices/e1000.rs:766-773 | a non-empty partial frame is queued and the next begins empty |
| E1000Tx.Transmitter.Turn | src/devices/e1000.rs:687-737 | one descriptor: buffer, end of packet, report and head |
| E1000Tx.Transmitter.Take | src/devices/e1000.rs:678-738 | a descriptor that cannot be read changes nothing |
| E1000Tx.Transmitter.WalkRing | src/devices/e1000.rs:676-738 | the bounded loop is the walk of the specification and counts the ends of packets, for any turn and end that agree with the ring |
| E1000Tx.Transmitter.ProcessTx | src/devices/e1000.rs:664-746 | the whole walk with the interrupt raised once; nothing when disabled or without a ring |
| E1000Tx.Transmitter.Kick | src/devices/e1000.rs:648-655 | writing the tail register drives the walk |
| E1000Frames.TakenConserves | src/devices/e1000.rs:749-773 | one buffer adds its bytes at the end of what is queued and partial |
| E1000Frames.Conserved | src/devices/e1000.rs:749-773 | no byte is lost, repeated or reordered |
| E1000Frames.Growing | src/devices/e1000.rs:749-763 | without an end of packet only the partial frame grows |
| E1000Frames.FrameBetween | src/devices/e1000.rs:692-773 | between two ends of packet lies one frame, the join of its buffers, unless it is empty |
| E1000Frames.FetchIntact | src/devices/e1000.rs:680-685 | write-backs never change a descriptor still to be read |
| E1000Frames.AppendIntact | src/devices/e1000.rs:749-763 | buffers clear of the write-backs read as they were at the start |
| E1000Frames.MarkNext | src/devices/e1000.rs:729-734 | a write-back sets its own status byte and nothing else |
| E1000Frames.ReachedNext | src/devices/e1000.rs:678-738 | one more descriptor keeps the picture of the walk so far |
| E1000Frames.WalkAssembles | src/devices/e1000.rs:664-746 | walking n descriptors assembles the n buffers named in memory at the start |
| E1000Frames.KickAssembles | src/devices/e1000.rs:648-773 | a kick moves the head to the tail, queues the joins of the buffers between ends of packets, sets every status byte asked for, changes memory nowhere else, and raises the cause exactly when a packet ended or a report was asked for |
| E1000Driver.PostedIsFetched | src/devices/e1000.rs:680-727 | a buffer posted in sixteen bytes is fetched as posted |
| E1000Driver.RingIsJob | src/devices/e1000.rs:664-685 | descriptor k on from the head lies at base + 16 ((head + k) mod count) |
| E1000Driver.KickSends | src/devices/e1000.rs:648-773 | posts laid out in the ring: their buffers go out in order, cut into frames where packets end; status bytes, the rest of memory and the cause are exact |
| E1000Driver.KickDevice | src/devices/e1000.rs:648-674 | a device with TDLEN of 16 count walks a ring of count descriptors |
| Microwire.TopNext | src/devices/e1000.rs:464-524 | shifting one bit in doubles the value and adds the bit |
| Microwire.WrappingSum | src/devices/e1000.rs:339-342 | the loop computes the 16-bit sum |
| Microwire.ChecksumCloses | src/devices/e1000.rs:337-343 | adding the checksum word makes the sum 0xBABA |
| Microwire.NewImage | src/devices/e1000.rs:328-343 | 64 words that begin with the MAC address and sum to 0xBABA, for every MAC |
| Microwire.Eeprom.constructor | src/devices/e1000.rs:352-387 | a new machine is deselected and holds the image |
| Microwire.Eeprom.ShiftOut | src/devices/e1000.rs:486-494 | one data bit, most significant first, and ready for a command after the sixteenth |
| Microwire.Eeprom.ShiftIn | src/devices/e1000.rs:495-518 | one command bit; the ninth latches the word of a READ or forgets the command |
| Microwire.Eeprom.EecdWrite | src/devices/e1000.rs:464-524 | deselect clears, a rising clock shifts, anything else holds; grant follows request |
| Microwire.Eeprom.StartRead | src/devices/e1000.rs:526-540 | START clears, DONE sets and the addressed word joins what the data field held |
| Microwire.OrAbsorbs | src/devices/e1000.rs:526-540 | bits or-ed into a word leave it alone exactly when they are bits of it already |
| Microwire.OrTransparent | src/devices/e1000.rs:526-540 | every word reads through data bits exactly when there are none |
| Microwire.SendCommand | src/devices/e1000.rs:464-524 | nine clocked bits, 110 and the address, select the word of any address |
| Microwire.ReceiveWord | src/devices/e1000.rs:486-494 | sixteen clocked bits rebuild the latched word |
| Microwire.ReadWord | src/devices/e1000.rs:464-524 | from any state at all the driver's loop recovers the word at any address and leaves the machine ready |
| Microwire.ReadAgain | src/devices/e1000.rs:464-524 | so does a second read without a deselect |
| Microwire.BothWays | src/devices/e1000.rs:464-540 | for every register value that starts a read: the serial and the one-shot read agree exactly when the data bits written along with START are bits of the word already |
| Microwire.DataBitsStay | src/devices/e1000.rs:526-540 | the image of the MAC address 2:0:0:0:0:0, whose first word the one-shot read gives as 3 when a 1 was written along with START |
| FixedPoint.SquareFits | microkernel/src/fixed.rs:58-64 | a square fits 64 bits exactly up to the limit |
| FixedPoint.StepExact | microkernel/src/fixed.rs:27-41 | inside the limit no product wraps, and a step divides by zero exactly when twice x is below one |
| FixedPoint.StepKeeps | microkernel/src/fixed.rs:32-38 | every step keeps 4x^2 >= 4S - 1, scaled, and x positive |
| FixedPoint.FallingStep | microkernel/src/fixed.rs:32-38 | a step down loses no more than a quarter of the truncated part squared |
| FixedPoint.StaysPositive | microkernel/src/fixed.rs:32-38 | a step down never reaches zero |
| FixedPoint.FitsKept | microkernel/src/fixed.rs:32-38 | iterates stay where products fit |
| FixedPoint.StepHalves | microkernel/src/fixed.rs:32-38 | the distance to a quarter above any upper bound of the root at least halves |
| FixedPoint.Converges | microkernel/src/fixed.rs:27-41 | after n steps both bounds hold, the upper one with what halving n times has left |
| FixedPoint.TooSmall | microkernel/src/fixed.rs:27-41 | below one half the first step divides by zero |
| FixedPoint.RootBounds | microkernel/src/fixed.rs:27-41 | sixteen steps fail exactly below one half, and else end between the two bounds |
| FixedPoint.Sqrt | microkernel/src/fixed.rs:27-41 | the loop: zero for s <= 0, a division by zero exactly for 0 < s < 1/2, else a root whose square is at least s - 1/4 and that exceeds no upper bound of the root by more than 1/4, s / 65536 and one unit |
| FixedPoint.SoftenedDistance | microkernel/src/nbody.rs:43-44 | with a softening of one the n-body root never divides by zero where the sum of squares does not pass the limit |
| FixedPoint.DistanceRoot | microkernel/src/nbody.rs:43-44 | wherever the wrapped sum is inside the limit, the n-body root divides by zero exactly when that sum is above zero and below one half |
| FixedPoint.FarApart | microkernel/src/nbody.rs:43-44 | a concrete pair of bodies whose softened sum wraps to less than one half, so that the root divides by zero |
| AnalyzeBits.SignFillIsExtended | capi/src/analyze.rs:967-973 | the analyzer's shift-up-and-down sign extension is the interpreter's mask-and-fill |
| AnalyzeSound.MovFact | capi/src/analyze.rs:213-247 | a value known at least as far as it is read keeps its provenance |
| AnalyzeSound.ExtendFact | capi/src/analyze.rs:662-670 | zero extension and truncation as inferred are those executed when the constant fits the width extended from |
| AnalyzeSound.SignFact | capi/src/analyze.rs:671-682 | sign extension as inferred is that executed |
| AnalyzeSound.BinaryFact | capi/src/analyze.rs:975-1003 | constant folding, neutral operands and an exclusive or of equals are right for every operator obeying their laws |
| AnalyzeSound.OddBinaryFact | capi/src/analyze.rs:975-1003 | the same when the second operand is rotated through carry, under conditions on the constants |
| AnalyzeSound.OffsetFact | capi/src/analyze.rs:710-744 | an address with an offset as inferred is that computed |
| AnalyzeSound.AddressFact | capi/src/analyze.rs:710-744 | the address LEA is claimed to write is the one it writes |
| AnalyzeSound.InferSound | capi/src/analyze.rs:654-708 | every value claimed for an operation is the one it writes, in every state the environment describes, also after registers the claim does not rest on were written |
| AnalyzeRun.StepKnows | capi/src/analyze.rs:298-362 | what an operation teaches the environment is true of the state it leads to |
| AnalyzeRun.RunKeeps | capi/src/analyze.rs:298-362 | any invariant of environment, state and registers written that one operation keeps, a whole list keeps |
| AnalyzeRun.RunKnows | capi/src/analyze.rs:298-362 | along every run from every start what the analyzer has learned is true |
| AnalyzeRun.MergedLow | src/smir/interpret/state.rs:29-52 | narrow x86 writes, which keep the bits above, do not disturb the value at the width written |
| AnalyzeRun.WritesHold | capi/src/analyze.rs:274-296 | a register write reported with a value holds that constant, or the named register's starting value, at the reported width in every run |
| AnalyzeRun.OutputHolds | capi/src/analyze.rs:859-885 | so does an output of the instruction |
| AnalyzeAddress.AddressMeans | capi/src/analyze.rs:491-644 | an address reported complete is the one the interpreter computes, in every state described |
| AnalyzeAddress.AddressesMean | capi/src/analyze.rs:411-644 | so along every run |
| AnalyzeExact.FineExact | capi/src/analyze.rs:654-708 | every operation is inferred rightly in every described state, whatever registers were written before, if and only if a check on the environment passes and the claim rests on none of those registers |
| AnalyzeExact.SpoiltNeeds | capi/src/analyze.rs:213-247 | a claim that rests on a register written before is wrong of some state |
| AnalyzeExact.ClearAfterWrite | capi/src/analyze.rs:975-1003 | an exclusive or of a register with itself is reported rightly whatever was written before |
| AnalyzeExact.ZeroExtendOfImmediate | capi/src/analyze.rs:662-670 | zero extension of an immediate ignores the width extended from: a concrete wrong claim |
| AnalyzeExact.RotateThroughCarry | capi/src/analyze.rs:213-247 | a register at one, rotated through carry by nothing, is written as zero and reported as itself: a concrete wrong claim |
| AnalyzeExact.RotateOfZero | capi/src/analyze.rs:213-247 | the same rotation of a constant zero is reported rightly |
| AnalyzeExact.ReadAfterWrite | capi/src/analyze.rs:213-247 | a register read after the same instruction wrote it is still reported as at the start: a concrete wrong claim |
| Analyzer.PushedAllMembers | capi/src/analyze.rs:207-211 | collecting loses no effect, invents none and keeps each once |
| Analyzer.Analyzer.constructor | capi/src/analyze.rs:192-205 | a new analyzer knows and reports nothing |
| Analyzer.Analyzer.Push | capi/src/analyze.rs:207-211 | an effect is appended exactly when it is new |
| Analyzer.Analyzer.ReportReads | capi/src/analyze.rs:267-272 | reads are reported through virtual registers too |
| Analyzer.Analyzer.ReportMemory | capi/src/analyze.rs:411-489 | the registers of an address, then the access |
| Analyzer.Analyzer.Record | capi/src/analyze.rs:334-354 | a virtual destination is remembered with its width, an architectural one reported |
| Analyzer.Analyzer.AnalyzeOp | capi/src/analyze.rs:298-362 | one operation: the operands left when one occurrence of the destination is taken away are reported as read, then the access and the write; the environment learns the result |
| Analyzer.Analyzer.Analyze | capi/src/analyze.rs:298-362 | over a list: the environment of the whole list, and exactly the effects its operations report |
| Analyzer.RemoveFirst | capi/src/analyze.rs:312-323 | one occurrence of the destination is taken away |
| AnalyzeReads.RemainingNamed | capi/src/analyze.rs:305-328 | what is left is exactly the operands read, also when one of them is the destination |
| AnalyzeReads.ReadsComplete | capi/src/analyze.rs:298-332 | two states that agree on the virtual registers and on the registers reported as read give the same result and the same address |
| AnalyzeReads.RunsAgree | capi/src/analyze.rs:298-362 | so along every list: from starts that agree on the registers it is reported to read, each operation writes the same value and uses the same address |
| AnalyzeReads.ReadsNamed | capi/src/analyze.rs:324-328 | a register is reported as read exactly when the operation names it, or names a virtual register that came from it |
| AnalyzeReads.AccessesExact | capi/src/analyze.rs:411-489 | a load or store is reported as one access of its direction and width, and nothing else is |
| AnalyzeReads.WritesExact | capi/src/analyze.rs:274-296 | a write of an architectural register is reported with its width and what is known of its value, and nothing else is |
| AnalyzeClaims.ConstantsFold | capi/src/analyze.rs:654-708 | an operation on constants has a constant for its result |
| AnalyzeClaims.CopiesFollowed | capi/src/analyze.rs:213-247 | a register copied is still known as that register |
| AnalyzeClaims.NeutralsFollowed | capi/src/analyze.rs:975-1003 | so is one combined with what leaves it alone, and with itself an exclusive or gives zero |
| AnalyzeClaims.AddressesFilled | capi/src/analyze.rs:491-644 | an address over registers and constants is reported completely |
| AnalyzeClaims.Remembered | capi/src/analyze.rs:345-354 | what is inferred for a virtual register is remembered with its width until it is written again |
| AnalyzeClaims.OperatorLaws | capi/src/analyze.rs:975-1003 | the operators are those of 64-bit words |
| AnalyzeClaims.NarrowWrites | src/smir/interpret/state.rs:29-52 | a narrow write to an x86 register keeps the bits above, any other replaces the register |
| Analyzer.ReportsHold | capi/src/analyze.rs:274-362 | every register write in the report is some operation's and holds there whatever the registers were and whatever the unmodelled operations gave |
| AnalyzeDiscipline.DisciplineSuffices | capi/src/analyze.rs:298-362 | lists whose virtual registers are read no wider than last written, or through an extension from that width, and that read no register after writing it, make every inference right: a test on their text alone |
| AnalyzeDiscipline.DisciplinedReportsHold | capi/src/analyze.rs:274-362 | every register write reported for such a list holds in every run from every start |
| AnalyzeDiscipline.DisciplinedAddress | capi/src/analyze.rs:411-644 | every complete address reported for it is the one the interpreter computes |
| ContextCodec.NumberAt | capi/src/context.rs:67-79 | a little-endian field reads back |
| ContextCodec.BytesAt | capi/src/context.rs:59-66 | length-prefixed bytes read back |
| ContextCodec.BytesCut | capi/src/context.rs:59-66 | cut off anywhere they are rejected |
| ContextCodec.RegionInverts | capi/src/context.rs:191-207 | a region of any size reads back whole; of a shorter prefix nothing is read, or less than a word is left, as two of its fields may be missing |
| ContextCodec.ManyAt | capi/src/context.rs:191-207 | a list reads back when its items do |
| ContextCodec.ManyCut | capi/src/context.rs:191-207 | a list cut off anywhere is rejected when its last item is firm, whatever the items before it do |
| ContextCodec.ManySpent | capi/src/context.rs:191-207 | a list cut off anywhere is rejected or leaves too little for another item |
| ContextCodec.HeadAt | capi/src/context.rs:135-156 | magic, version, architecture, mode and flags read back |
| ContextCodec.HeadShort | capi/src/context.rs:135-156 | no head is read from fewer than twenty bytes |
| ContextLayout.HeadLayout | capi/src/context.rs:84-101 | a saved context begins with 43 58 41 52, then version 1, architecture, mode and flags in four bytes each |
| ContextLayout.TailLayout | capi/src/context.rs:93-112 | from byte 20: length of the CPU state and the state, length of the emulator state and the state, number of regions |
| ContextLayout.RegionsStart | capi/src/context.rs:112-131 | the regions come right after |
| ContextLayout.RegionsLaid | capi/src/context.rs:112-131 | region i, after the bytes of those before it: base and size in eight bytes each, permissions and padding in four each, contents |
| ContextCodec.TailAt | capi/src/context.rs:157-210 | state and regions read back |
| ContextCodec.TailCut | capi/src/context.rs:157-210 | cut off anywhere they are rejected when the last region holds at least four bytes |
| ContextCodec.RoundTrip | capi/src/context.rs:84-261 | decoding a saved context gives it again and uses all of its bytes, whatever the size of its regions |
| ContextCodec.Trailing | capi/src/context.rs:135-261 | whatever bytes follow a saved context, it is read back from its own; they are all there are exactly when nothing follows |
| ContextCodec.Truncated | capi/src/context.rs:135-261 | every strict prefix of a saved context is rejected when its last region holds at least four bytes |
| ContextCodec.ShortRead | capi/src/context.rs:191-207 | with a last region of fewer, the context without its last eight bytes is read too: permissions gone, contents taken from where they were |
| ContextCodec.TruncatedExactly | capi/src/context.rs:135-261 | every strict prefix of a saved context is rejected if and only if its last region holds at least four bytes |
| ContextCodec.DecodedFilled | capi/src/context.rs:190-210 | whatever bytes decode, there is a region and each holds as many bytes as its size says |
| Context.Reader.Take | capi/src/context.rs:59-66 | the next bytes, or a failure that does not move |
| Context.Reader.Number | capi/src/context.rs:67-79 | the next field, or a failure that does not move |
| Context.Reader.NumberOr0 | capi/src/context.rs:67-79 | a missing field counts as zero |
| Context.Reader.Region | capi/src/context.rs:191-207 | one region as the layout says |
| Context.Reader.Regions | capi/src/context.rs:190-207 | the loop reads the list or fails with it |
| Context.SortRegionsSame | capi/src/context.rs:226-226 | sorting leaves regions in order as they are |
| Common.SortMembers | capi/src/context.rs:226-226 | sorting loses nothing and adds nothing |
| Common.SortSame | capi/src/mem.rs:168-168 | what is in order stays as it is |
| Context.Assembles | capi/src/context.rs:226-231 | a memory is assembled exactly from regions that do not overlap |
| Context.Machine.Serialize | capi/src/context.rs:84-131 | the blob is the encoding of the engine's state |
| Context.Machine.ReadHead | capi/src/context.rs:135-156 | which failure each bad head gives |
| Context.Machine.ReadTail | capi/src/context.rs:157-210 | state and regions as the layout says |
| Context.Machine.Deserialize | capi/src/context.rs:135-261 | succeeds exactly when the bytes decode, every region is non-empty and ends inside the address space, the host allocates, the regions do not overlap and the vCPU takes the state; then the engine is the decoded context with its regions sorted, in order and filled, aligned or plain exactly when every region decoded is; else nothing changed |
| Context.Restored | capi/src/context.rs:212-231 | the map a restore installs is aligned, or plain in its permissions, exactly when every region of the blob is |
| Context.RestoresStray | capi/src/context.rs:135-261 | a concrete blob that restores to a map neither aligned nor plain |
| Context.RestoresTruncated | capi/src/context.rs:135-261 | a concrete blob of 71 bytes whose first 63 restore, with the contents 7, 0, 0 for what was 11, 22, 33 |
| Context.SavedIsRestored | capi/src/context.rs:84-261 | what an engine saves, aligned or not and whatever the size of its regions, restores unchanged in mode, state, regions, permissions and contents |
| Context.MapIsEncodable | capi/src/context.rs:84-131 | every memory map in order can be saved, and every aligned one so that no strict prefix restores |
| RunLoop.TracksPrefix | capi/src/run.rs:241-510 | in a tracked log each event is safe and finds the flag the one before left |
| RunLoop.StopIsFinal | capi/src/run.rs:306-306 | a stop request stays |
| RunLoop.NothingAfterStop | capi/src/run.rs:241-510 | once any callback has asked to stop, no step and no run is made for the rest of the run |
| RunLoop.UntilNotStepped | capi/src/run.rs:317-321 | where hooks leave PC alone the instruction at `until` is never stepped |
| RunLoop.Engine.constructor | capi/src/run.rs:74-92 | a new engine is not running and reports no stop |
| RunLoop.Engine.Returned | capi/src/run.rs:587-598 | a callback may set the stop flag and cannot clear it |
| RunLoop.Engine.Fire | capi/src/run.rs:337-355 | every matching hook is called in order with the address; PC stays where all of them leave it |
| RunLoop.Engine.Announce | capi/src/run.rs:335-360 | block hooks at the head of a block, then code hooks; goes on to the step exactly when no hook asked to stop |
| RunLoop.Engine.FireMem | capi/src/run.rs:25-38 | each recorded access goes to each hook that wants it, in order; no instruction runs |
| RunLoop.Engine.StepOnce | capi/src/run.rs:362-373 | one step of the vCPU, made with the flag clear; with memory hooks its accesses are taken out and shown |
| RunLoop.Engine.InputString | capi/src/run.rs:138-148 | asks for every value, also after a stop request, and gathers all of them in order |
| RunLoop.Engine.Input | capi/src/run.rs:123-130 | the callback's value is completed at the access size |
| RunLoop.Engine.Dispatch | capi/src/run.rs:109-235 | an exit continues the run exactly when a callback serves it, with what that callback was given and left; otherwise nothing changes and the report names it |
| RunLoop.Engine.Settle | capi/src/run.rs:375-416 | which step or exit ends the run, in what state and with what report and status |
| RunLoop.Engine.StepTurn | capi/src/run.rs:309-425 | one turn of the model; at most one step, and exactly one when the run goes on; within the count, and a true reason if it ends the run |
| RunLoop.Engine.StepLoop | capi/src/run.rs:308-425 | the turns of the model: never more steps than the count, one for each turn while it lasts, and a true reason at the end |
| RunLoop.Engine.ExitLoop | capi/src/run.rs:428-478 | the turns of the model: no steps, runs of the vCPU only with the flag clear, never a stop for the count or for `until`, and a true reason at the end |
| RunLoop.Engine.Drive | capi/src/run.rs:287-293 | steps only when the vCPU can and something asks for it |
| RunLoop.Engine.Run | capi/src/run.rs:241-510 | for any vCPU and callbacks: vCPU, flag, steps, status and report are those of the model run for as many turns; a safe log from the cleared flag on, at most `count` steps, not running at the end, the reported reason is so, and control stops report the number of steps; with a count it ends within count + 1 turns; a backend that cannot step ignores the count and `until` |
| RunLoop.Engine.Advance | capi/src/run.rs:335-425 | a turn past the stop conditions: hooks, step, verdict and the head of the next block |
| RunLoop.Engine.ExitOnce | capi/src/run.rs:428-478 | one run of the vCPU and what is made of its exit |
| RunLoop.Engine.Begin | capi/src/run.rs:262-272 | a run begins with the flag clear and PC set, or fails when PC cannot be set |
| RunModel.Stays | capi/src/run.rs:308-478 | a run that has ended stays ended |
| RunLaws.OneHook | capi/src/run.rs:337-355 | a hook is called with the address exactly when its range holds it, an empty range standing for all; its state and its stop request are kept |
| RunLaws.HooksInOrder | capi/src/run.rs:337-355 | hooks are called in order, each on the state the one before left, even after a stop request |
| RunLaws.OneMemHook | capi/src/run.rs:25-38 | a memory hook is shown an access exactly when it wants the kind and its range holds the address |
| RunLaws.AccessesInOrder | capi/src/run.rs:25-38 | each access is shown to all hooks before the next is |
| RunLaws.InputBytes | capi/src/run.rs:99-102 | an input is completed with as many bytes as asked for, of the value modulo 256 to that power |
| RunLaws.StringBytes | capi/src/run.rs:138-148 | the values of a string input follow each other, each asked for in the state the one before left |
| RunLaws.HandedOver | capi/src/run.rs:119-212 | what each exit hands its callback and what becomes of the answer |
| RunLaws.StringHandedOver | capi/src/run.rs:138-152 | a string input completes all its bytes at once, after the last callback |
| RunLaws.FailureShown | capi/src/run.rs:396-416 | a failed instruction is shown to its callback, and the run goes on exactly when that copes |
| RunLaws.TopOfTurn | capi/src/run.rs:311-333 | a stop request goes before the address, that before the count and that before the time, and none of them moves the vCPU |
| RunLaws.ExitReports | capi/src/run.rs:119-235 | which reason and fields report each exit no callback serves |
| RunLaws.ExitsPlaced | capi/src/run.rs:386-393 | a report that names no address names that of the instruction |
| RunLaws.BeginsAt | capi/src/run.rs:262-272 | a run begins where the caller says, if it says, and else where the vCPU stands |
| RunLaws.OwnValues | capi/src/run.rs:482-497 | input and output keep a value of their own, all other stops report the number of steps |
| RunLaws.NothingBetween | capi/src/run.rs:287-293 | the loop steps exactly when a count, an address, a time limit or a code, block or memory hook asks for it |
| RunLaws.BareTurn | capi/src/run.rs:309-425 | with no hooks a turn is one step of the vCPU and ends as its outcome says |
| RunLaws.WatchedTurn | capi/src/run.rs:362-373 | with memory hooks: the step, then its accesses shown in the state they were taken out of |
| RunLaws.BlockTurn | capi/src/run.rs:335-348 | block hooks are called where a block begins and only there; the next one begins exactly when PC has gone back or more than fifteen bytes on |
| RunLaws.CountedRun | capi/src/run.rs:241-510 | a run of n instructions leaves what n steps of the vCPU leave and stops for the count |
| RunLaws.UntilRun | capi/src/run.rs:241-510 | a run up to an address first reached after n steps leaves what those leave |
| RunLaws.ExitedRun | capi/src/run.rs:241-510 | a vCPU that comes back from instruction n + 1 ends the run there with its exit |
| RunLaws.FailedRun | capi/src/run.rs:241-510 | one that fails ends it with its status |
| RunLaws.PrintedRun | capi/src/run.rs:428-478 | from exit to exit: n outputs handed to their callback and then another exit leave what running and handing over n times and running once more leaves |
| RunLaws.RunCounted | capi/src/run.rs:241-510 | the engine itself, run for a count of n, holds what n steps leave and reports n |

## Left out

- HPET: register reads, the legacy-route bit, partial-width MMIO and the conversion of nanoseconds to ticks; the
  counter sample is an input.
- AES: a 32-bit schedule word is carried as four bytes; the SHA-1 code in the same file is not modelled.
- Memory map: two regions sharing one reference-counted backing are modelled by value; the sort is a stable
  insertion; the status of a vCPU that cannot be rebuilt is one failure whatever its cause.
- MemAccess.VirtWrite: translations cached by a vCPU, and bits a table walk sets itself, are not modelled.
- AHCI: native command queuing, port reset, the register file and the contents of IDENTIFY, which is any
  byte string here; registers are sets of bit positions and byte-wise access to write-1-to-clear registers
  is out.
- AhciDma.WriteThenRead: asks for the read's structures to be clear of the count and FIS the write leaves, and
  for its destination to be clear of its own count and FIS, since the device would otherwise overwrite them.
- AhciDriver.SectorsRead: asks for a list that visits no address twice and is clear of the count and FIS the command
  itself writes; `Deliver` states what any other list receives.
- AhciDriver.SectorsCarried: asks the same of the read, and that the read is still in its slot after the write.
- AhciDma.HeaderCounts: asks for the response FIS not to land on the header, which it would overwrite.
- Floppy: DMA transfers and the timing of phases.
- e1000: reception, the PHY, offloads and VLAN tags, and the rest of the register file; only the
  descriptor-written-back cause is followed, and descriptor addresses wrap at 2^64.
- E1000Frames.KickAssembles: asks for readable buffers within the size cap and clear of the write-backs, as
  the design does; `AppendTxData` states what happens to any other buffer.
- E1000Driver.KickSends: asks the same of the posted buffers.
- FixedPoint.Sqrt: nothing is stated above the limit, where the argument's own square leaves 64 bits.
- FixedPoint.SoftenedDistance: asks for a sum of squares inside that limit; `DistanceRoot` covers sums that wrap back into it.
- Analyzer: JSON parsing, register names and flag tables, control-flow effects, opaque bridge operations,
  gp-relative addresses, legacy high-byte registers and the order of read effects;
  values of operations that are not modelled are arbitrary.
- Registers of the interpreter are plain 64-bit cells: the RISC-V zero register, which ignores writes, the
  32-bit registers of Hexagon and its separate link, stack and frame pointers are not told apart.
- Context: the encoding of CPU and emulator state is an oracle that accepts what it produced, and a vCPU that
  silently declines emulator state is not told apart; positions near 2^64 are not wrapped; the stop flag and
  last exit that a restore also clears belong to the run loop's model.
- RunLoop.Engine.Run: a run is followed for any number of turns, so that a run that never ends has no last
  state but all its prefixes are safe; the error text and the switch for recording accesses are left out.
- Register tables, handle checks, instruction decoding, the SMIR lifters, the JIT, other devices, buses, the
  command line and configuration loading: easy members or foreign code.
