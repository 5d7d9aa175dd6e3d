# CMOS manager model

A verification project for the CMOS manager (`AmiCompatibilityPkg/CmosManager`): a small storage
engine over the battery-backed registers of a PC. Boot code reads and writes bit fields ("tokens")
of a managed region of 8-bit registers. The manager keeps a 16-bit additive checksum of the region
up to date on every write, can serve accesses from a writable table of optimal defaults (the
"buffer") when the registers cannot be trusted, mirrors failures in legacy status registers, and
carries its state from the PEI phase through a hand-off block (HOB) into the DXE phase, where the
buffer is flushed to the registers. Three smaller, independent pieces are modelled beside it: the
debug port's number formatter, parser and line sender (`Samedebug_old.c`), the word wrap of the
CMOS popup (`CmosMessages.c`), and the shadow RAM switch (`CRBLib.c`).

## How the model is built

* `CmosManager.dfy` holds the manager in the program's own form: a class over `phys` (the physical
  registers), `defaults` (the buffer), the scanned tables, the status word and an optional HOB. Its
  methods are the program's functions, with their loops and their mutual recursion (a status change
  writes a token, a token write writes the checksum, a checksum write changes the status). The
  recursion is proved to end by a measure on the no-checksum flag and on the reported bits.
* `CmosStore.dfy` gives the state as a value and the effect of each elementary operation in closed
  form, without recursion. Every method of the class is proved to have exactly that effect on
  `St()`, the manager as a value. What is promised of the manager is then proved about the values.
* The routed view `View(a)` is what a routed read of register `a` returns. `Coherent()` says that
  the stored 16-bit checksum is the sum, modulo 65536, of the view over the managed, checksummed
  registers.
* `Drift()` is how far the stored checksum is off that sum, modulo 65536; `Coherent()` is a drift of
  zero.
* `FlatStore.dfy` is an independent reference: one flat array, no routing and no status word, with
  the checksum summed afresh after each write, and beside it the file of registers that only a
  register number reaches.
* `Operations.dfy` puts all public operations together and states what any run of them keeps.
  `Lifecycle.dfy` strings a whole boot together: power-on with arbitrary register contents, the PEI
  entry, operations, the migration to the hand-off block, more operations, the DXE entry.

| file | content |
|---|---|
| Bytes, TokenCodec | bytes and words; tokens, their encoding and decoding |
| RegisterTables, CmosTables | the sorted register lists and their scans; the generated tables |
| CmosStore, StoreLaws, MethodSteps | the state as a value; the view, the sum and the status changes |
| Requests, FlatStore | read and write requests; refinement of the flat array |
| StatusLaws, StatusTokens, StatusCommutes, OptimalDefaults, LoadingLaws, ApiPointer, Clock | status mirror, default loading, pointer, clock |
| Boot, BootLaws, BufferIdle, PeiLaws, PointerLaws, CopyBounds, MigrationLaws, HandOverLaws | the two entry points, the move to permanent memory and the hand-over |
| ShippedLayout | an example layout and the losing states in it |
| CmosManager | the manager as a class |
| Operations, Lifecycle | runs of all public operations; a whole boot |
| NumberText, NumberLaws, LineSender, WordWrap, ShadowRam | the secondary pieces |

## Main results

1. **Any run of requests refines a flat array** (`FlatStore.RunRefines`): with the registers served
   by hardware, by the buffer or by a mixture, and with the checksum right or wrong, reads and writes
   by token or by register number reply and end like one byte array whose checksum is summed afresh.
   No run off the checksum registers repairs a wrong checksum or spoils a right one
   (`FlatStore.RunKeepsDrift`).
2. **The checksum is right from power-on** (`PeiLaws.PeiEntryEstablishes`, `Operations.RunStaysRight`):
   from any register contents and any answers of the hooks the PEI entry ends coherent, on every
   branch, and careful operations keep it so. The move to permanent memory keeps it, whatever the
   block's room held, exactly when every register that counts is on the hardware or has its cell
   copied (`MigrationLaws.DriftKeptExactly`); then it is right at the end of PEI
   (`Lifecycle.RightToEndOfPei`). DXE with usable registers, taking over a manager not marked as a
   duplicate, ends coherent; with unusable ones it stays on the buffer and is coherent exactly when
   the buffer is under DXE's routing (`Lifecycle.BootDelivers`), as it is in a careful boot without
   usable registers whose move carries over all that counts (`Lifecycle.DeadBatteryIsRight`). From
   there careful operations keep it so (`Lifecycle.RightThroughBoot`).
3. **Updates are always on again** (`Operations.StaysSettled`, `Operations.RunStaysSettled`).
4. **Loading** (`LoadingLaws.LoadedRegister`, `LoadingLaws.LoadedIsCoherent`): each register gets
   the default at its rank, and the result has the right checksum.
5. **The hand-over**, for whatever PEI wrote before or after the migration: with usable registers DXE
   flushes and leaves the buffer exactly when the manager taken over was not marked as a duplicate
   (`HandOverLaws.FlushesUnlessDuplicate`); otherwise it goes on showing the buffer
   (`HandOverLaws.UnflushedKeepsBuffer`). A flushed checksummed register keeps its value, whatever
   byte was buffered for it, exactly when no unmanaged register comes before it and the table has a
   default for it (`HandOverLaws.SurvivesExactlyWhenAligned`); and over a whole boot each register so
   placed reads in DXE what it read at the end of PEI (`Lifecycle.BootDelivers`).
6. **What the phases leave in the status word, its tokens and the API pointer**: each status token
   records its own bit and no other's (`StatusTokens.EachBitHasItsToken`), the diagnostic register
   follows the two failure bits (`StatusLaws.ChangeMovesFailureBits`), the hooks' answers and the way
   each entry took show in the status word (`BootLaws.AnswersDecide`, `PeiLaws.PeiEntryFlags`,
   `PeiLaws.PeiEntryModes`, `HandOverLaws.DxeFlags`), and the pointer is the interface's address after
   the PEI entry exactly when recovery does not reload its registers
   (`PointerLaws.SavedWithEveryTableExactly`), and after the migration whenever the registers are
   usable (`PointerLaws.MigrationSavesPointer`).
7. **The secondary pieces**: a number has exactly one text for each width, base and choice of flags,
   and that is what is written (`NumberLaws.OnlyText`); numerals read back exactly under a stated
   condition on the flags (`NumberText.RoundTripExactly`), lines arrive whole exactly up to 254 characters
   (`LineSender.SentExactly`), wrapping works exactly when no word exceeds a line
   (`WordWrap.WrappableExactly`) and loses no word (`WordWrap.WrapKeepsWords`), and closing the
   shadow RAM restores it exactly when the socket's validity did not change
   (`ShadowRam.RestoresExactly`).

## Where the code does not do what one would expect

* **Position against rank.** A buffered access indexes the table by the register's position in the
  region (CmosAccess.c:430); the flush walks the table by rank among the managed registers
  (CmosAccess.c:1370-1453). With an unmanaged register in front, the flush writes another register's
  byte. `HandOverLaws.SurvivesExactlyWhenAligned` gives the exact condition, and
  `ShippedLayout.DataIsLost` an example around the board file's registers, which put the unmanaged
  API pointer at 42h-45h.
* **A copy that is too short.** Before permanent memory the buffer is a copy of as many cells as
  there are defaults (CmosManager.c:349-355), and accesses index it by position (CmosAccess.c:430-439).
  Every register of the region has its cell in the copy if and only if there is a default for each
  (`CopyBounds.CopyCoversExactly`), and with one default per managed register every managed one has
  it if and only if no unmanaged register comes before a managed one
  (`CopyBounds.CoversManagedExactly`). A register beyond shows what memory holds behind the copy
  (`CopyBounds.OwnCellExactly`, `ShippedLayout.DataIsForeign`).
* **A move that spoils the checksum.** The hand-off block has room for a cell per register, but gets
  only as many as there are defaults (CmosManagerPei.c:123-126). A buffered register beyond them
  loses its byte in the move (`MigrationLaws.ViewKeptExactly`), and if it counts for the checksum the
  right one can become wrong: `MigrationLaws.DriftKeptExactly` is the exact condition, and
  `ShippedLayout.IdleBootSpoilsSum` a boot that asks for nothing and still loses it.
* **Recovery of checksummed registers only.** A comment says that with a bad checksum only
  checksummed values are written (CmosAccess.c:1308-1309). The flush skips the others exactly when
  DXE finds the checksum wrong under its own routing, the policy asks for it and neither phase saw a
  first boot (`HandOverLaws.OffChecksumSurvivesExactly`, and
  `HandOverLaws.BufferedOffChecksumSurvivesExactly` for registers that PEI read from the buffer).
  Going over to the buffer stores the right checksum, so unless an operation or the move above spoils
  it DXE clears the bad-checksum bit and overwrites them: `ShippedLayout.ScratchIsLost` shows a loss,
  and the same register kept when the checksum is wrong.
* **The pointer and recovery.** The PEI entry saves the API pointer before it recovers
  (CmosManagerPei.c:479, 500). If the four registers are managed, recovery reloads them from the
  table of defaults: `PointerLaws.SavedWithEveryTableExactly` gives the exact condition,
  `PointerLaws.EntrySavesPointer` the one for a given table.
* **No flush on a bad checksum alone.** A comment says that DXE flushes on a bad checksum as well
  (CmosManagerDxe.c:488-490); the code flushes only while the buffer is in use
  (`HandOverLaws.NothingToFlush`).
* **Duplicate flag.** A second PEI start marks the first manager as already installed. The mark
  travels through the hand-off block, and the DXE entry then returns before flushing:
  `Lifecycle.SecondStartLosesBuffer`.
* **Scans read one entry past the table.** The look after each scan is at the cell behind the last
  entry when all entries were passed. `RegisterTables.ScanExactWhenGuardInert` says exactly when
  that is harmless. In the HOB the cell behind the no-checksum table is the count of unmanaged
  registers.
* **No write error.** The physical write reports success whatever the bank said
  (CmosAccess.c:349), so the error branch of the default loading is reached only when the error bit
  was already set.
* **Zero padding** goes in front of the sign and wins over left justification, which only keeps
  blanks away (`NumberText.Rendered`, Samedebug_old.c:302-322).

## What is taken for granted

The code relies on these without checking them, and the contracts state them:

* The two tables are strictly increasing and the cell behind each is out of the way (`GuardInert`).
* The checksum tokens are two distinct 8-bit, offset-0 tokens on registers outside the checksum; the
  status tokens and the API pointer are outside the checksum too, and apart from it.
* Where it matters, no two status tokens share a bit (`StatusTokens.TokensApart`) and no status token
  lies in a register of the API pointer (`PointerLaws.PointerApart`).
* Every token has a size of at least one bit, lies inside its register, and names a managed
  register; every managed register is covered by a bank.
* There are at most as many defaults as the region has registers. The buffer array has a cell per
  register; where the program's table is shorter, the cells behind it stand for the memory there.
* Fewer than 256 banks, as their index is 8 bits wide.

## Model

| member | source | states |
|---|---|---|
| TokenCodec.DecodeAfterMerge | AmiCompatibilityPkg/CmosManager/CmosAccess.c:66-127 | an accepted value written under its mask over any register value decodes to itself |
| TokenCodec.ReadsBackExactlyWhenInside | AmiCompatibilityPkg/CmosManager/CmosAccess.c:66-127 | for any offset and any size from 1 to 8: all accepted values read back if and only if the field ends inside the register |
| TokenCodec.EncodedInField | AmiCompatibilityPkg/CmosManager/CmosAccess.c:66-71 | an accepted value, encoded, has no bit outside the field's mask |
| TokenCodec.DisjointFieldKept | AmiCompatibilityPkg/CmosManager/CmosAccess.c:101-127 | a write through one field leaves what decodes through any field with other bits |
| TokenCodec.WrittenBits | AmiCompatibilityPkg/CmosManager/CmosAccess.c:66-127 | a written value's bits go to the field in order, from its offset up, and every other bit of the register stays |
| TokenCodec.FieldBits | AmiCompatibilityPkg/CmosManager/CmosAccess.c:121-127 | the mask has exactly the bits from the offset on, as many as the size |
| TokenCodec.OverflowsExactly | AmiCompatibilityPkg/CmosManager/CmosAccess.c:101-109 | a value is refused for a field if and only if it has a bit beyond the field's size |
| TokenCodec.TokenParts | AmiCompatibilityPkg/CmosManager/CmosTypes.h:170-181 | a code is its offset, 8 times its register and 4096 times its size, and those from 4096 up are the ones with a size |
| RegisterTables.ScanAnswers | AmiCompatibilityPkg/CmosManager/CmosAccess.c:366-382 | the look after a scan is true for a listed register or a misread of the cell behind the table, never both |
| RegisterTables.ScanExactWhenGuardInert | AmiCompatibilityPkg/CmosManager/CmosAccess.c:366-382 | scans over a range answer membership if and only if the cell behind the table holds no unlisted register of the range above the last entry |
| CmosTables.InHobIsSame | AmiCompatibilityPkg/CmosManager/CmosManagerPei.c:112-145 | the tables copied into the hand-off block, with other cells behind them, stand for the same layout |
| StoreLaws.ViewAfterPut | AmiCompatibilityPkg/CmosManager/CmosAccess.c:503-542 | a write at one place shows at its own address only, and only if that is the place the address is routed to |
| StoreLaws.SumMovesByChange | AmiCompatibilityPkg/CmosManager/CmosAccess.c:1056-1103 | changing one checksummed register moves the sum by the difference of its values |
| StoreLaws.SumCountsExactly | AmiCompatibilityPkg/CmosManager/CmosAccess.c:1143-1182 | a register counts for the sum, with its value, if and only if it is on neither list |
| StoreLaws.SumOfZeros | AmiCompatibilityPkg/CmosManager/CmosAccess.c:1143-1182 | registers that all show 0 sum to 0 |
| StoreLaws.AdjustedKeepsDrift | AmiCompatibilityPkg/CmosManager/CmosAccess.c:1056-1103 | stored sum minus old byte plus new byte, wrapped to 16 bits, is the full sum of the changed view, off by as much as the stored sum was before |
| StoreLaws.AdjustedIsFullSum | AmiCompatibilityPkg/CmosManager/CmosAccess.c:1056-1103 | on a right checksum it is the full sum itself |
| StoreLaws.PutChecksumStores | AmiCompatibilityPkg/CmosManager/CmosAccess.c:811-858 | a stored 16-bit sum is read back; nothing else viewed changes; the no-checksum flag is clear afterwards |
| StoreLaws.StoredBytes | AmiCompatibilityPkg/CmosManager/CmosAccess.c:837-858 | the high token's register shows the sum divided by 256, the low one's the remainder |
| StoreLaws.SetBitsIsQuiet | AmiCompatibilityPkg/CmosManager/CmosManager.c:223-256 | setting bits that do not route, with all the token writes it causes, changes no view but the status registers' |
| StoreLaws.ClearBitsIsQuiet | AmiCompatibilityPkg/CmosManager/CmosManager.c:223-256 | so does clearing them |
| StoreLaws.SetBitsKeepsCells | AmiCompatibilityPkg/CmosManager/CmosManager.c:223-256 | setting any bits writes, in the registers and in the buffer, only status tokens' registers and the diagnostic register |
| StoreLaws.QuietKeepsCoherence | AmiCompatibilityPkg/CmosManager/CmosManager.c:223-256 | such a change keeps the full sum, the stored sum and whether they agree |
| Requests.SummedUpdateOnView | AmiCompatibilityPkg/CmosManager/CmosAccess.c:295-350 | a masked write of a checksummed register, at either place: the masked bits, the two checksum bytes, and nothing else |
| Requests.QuietUpdateOnView | AmiCompatibilityPkg/CmosManager/CmosAccess.c:419-482 | a masked write off the checksum or with updates off: the masked bits and nothing else |
| Requests.UpdateKeepsDrift | AmiCompatibilityPkg/CmosManager/CmosAccess.c:295-350 | any write off the checksum registers leaves the stored sum as far off as it was, whichever place serves it |
| Requests.WriteKeepsDriftExactly | AmiCompatibilityPkg/CmosManager/CmosAccess.c:1234-1281 | a token write leaves the stored sum as far off as it was, right or wrong, if and only if it does not change a checksum register |
| Requests.WriteKeepsCoherenceExactly | AmiCompatibilityPkg/CmosManager/CmosAccess.c:1234-1281 | so a write on a right checksum keeps it right if and only if it does not change a checksum register |
| Requests.WriteThenRead | AmiCompatibilityPkg/CmosManager/CmosAccess.c:577-677 | through the whole stack, an accepted value is read back, on either routing |
| Requests.WriteKeepsOtherTokens | AmiCompatibilityPkg/CmosManager/CmosAccess.c:577-677 | every token with other bits reads as before, the checksum's apart; an oversize value changes nothing |
| Requests.MarkIsWrite | AmiCompatibilityPkg/CmosManager/CmosManager.c:231-241 | recording a status bit is the token write any caller could make, and it succeeds |
| StatusTokens.EachBitHasItsToken | AmiCompatibilityPkg/CmosManager/CmosManager.c:228-242 | with status tokens that share no bit: after setting bits with usable registers each of the four reads 1 if its own bit was among them and as before otherwise; without, none changes |
| StatusTokens.SetBitsRecords | AmiCompatibilityPkg/CmosManager/CmosManager.c:228-242 | the same for any token apart from the four: it reads as before |
| StatusTokens.SameTokens | AmiCompatibilityPkg/CmosManager/CmosAccess.c:517-526 | and bits that do not route leave what every token reads |
| StatusTokens.ClearBitsRecordsNothing | AmiCompatibilityPkg/CmosManager/CmosManager.c:243-254 | clearing bits changes what a token reads only by the routing |
| FlatStore.RunRefines | AmiCompatibilityPkg/CmosManager/CmosAccess.c:295-677 | any run of reads and writes, by token (the checksum's included) or by register number, with the checksum right or wrong, replies and ends like the flat array beside its register file |
| FlatStore.RunKeepsDrift | AmiCompatibilityPkg/CmosManager/CmosAccess.c:1056-1103 | no run off the checksum registers repairs a wrong checksum or spoils a right one |
| FlatStore.TokenWriteRefines | AmiCompatibilityPkg/CmosManager/CmosAccess.c:577-614 | one token write is the flat write: the masked bits, then a freshly summed checksum as far off as before; nothing beneath the view changes |
| FlatStore.FreshWhenRight | AmiCompatibilityPkg/CmosManager/CmosAccess.c:1056-1103 | from a right checksum that is the fresh sum itself |
| FlatStore.RawWriteUnseen | AmiCompatibilityPkg/CmosManager/CmosAccess.c:1243-1267 | a write by register number reaches one hardware register outside the managed region and nothing else |
| FlatStore.RawReadRefines | AmiCompatibilityPkg/CmosManager/CmosAccess.c:641-656 | a read by register number returns the hardware register: the view, unless the buffer hides it |
| MethodSteps.GuardedPutChecksum | AmiCompatibilityPkg/CmosManager/CmosAccess.c:338-346 | raising the flag, storing the sum (which lowers it) and lowering it again is just storing the sum |
| MethodSteps.PutChecksumSteps | AmiCompatibilityPkg/CmosManager/CmosAccess.c:837-858 | the two token writes with updates off, in this order, store the sum and leave the flag clear |
| MethodSteps.WordFromReads | AmiCompatibilityPkg/CmosManager/CmosAccess.c:811-823 | two byte reads into one word with a shift between give the stored sum, whatever the word held |
| StatusLaws.RunKeepsDiagnostic | AmiCompatibilityPkg/CmosManager/CmosAccess.c:923-1033 | over any run of status changes: in PEI no failure bit is cleared, in no phase do the six other bits change, and the hand-off block follows |
| StatusLaws.ChangeMovesFailureBits | AmiCompatibilityPkg/CmosManager/CmosAccess.c:959-1033 | setting the checksum or battery bit raises bit 6 or bit 7 of the diagnostic register, clearing lowers it in DXE only, and no other change touches it |
| StatusLaws.WriteKeepsHob | AmiCompatibilityPkg/CmosManager/CmosManager.c:250-251 | after any write the hand-off block shows the manager's status |
| StatusLaws.SummedWriteReachesHob | AmiCompatibilityPkg/CmosManager/CmosAccess.c:841-843 | after a checksummed write the hand-off block's checksum is the stored one |
| StatusLaws.LoadKeepsHob | AmiCompatibilityPkg/CmosManager/CmosAccess.c:1484-1490 | a load, which restores a bit behind the block's back, still ends with the block showing the status |
| OptimalDefaults.FilledDone | AmiCompatibilityPkg/CmosManager/CmosAccess.c:1378-1383 | leaving the loop when the defaults run out loses nothing |
| OptimalDefaults.RankCounts | AmiCompatibilityPkg/CmosManager/CmosAccess.c:1378-1407 | a register's rank is the number of managed registers below it in the region |
| LoadingLaws.LoadedRegister | AmiCompatibilityPkg/CmosManager/CmosAccess.c:1313-1495 | a managed register gets the default at 1 plus the number of managed registers below it; unmanaged ones, those past the table and, on a restricted recovery, unchecksummed ones keep their value |
| LoadingLaws.LoadedByCount | AmiCompatibilityPkg/CmosManager/CmosAccess.c:1313-1495 | the same by counting: in the region, managed, with a default at that place, and not one that a recovery without a first boot restricts to the checksummed ones |
| LoadingLaws.LoadedIsCoherent | AmiCompatibilityPkg/CmosManager/CmosAccess.c:1455-1495 | a load that succeeds leaves the registers with the right checksum, clears the bad-checksum and no-checksum bits, and restores the routing |
| LoadingLaws.CheckAfterLoad | AmiCompatibilityPkg/CmosManager/CmosAccess.c:1455-1495 | with hardware routing a check after the load finds the checksum right |
| LoadingLaws.ResummedFacts | AmiCompatibilityPkg/CmosManager/CmosManager.c:358-360 | summing and storing makes the checksum right whatever it was |
| LoadingLaws.ResummedSum | AmiCompatibilityPkg/CmosManager/CmosManager.c:358-360 | the sum taken before is the sum of what is left, and is the stored one |
| ApiPointer.SavedPointerIsRead | AmiCompatibilityPkg/CmosManager/CmosManager.c:391-458 | any 32-bit pointer is read back as saved, through four byte writes and shifts |
| ApiPointer.AssembledExactly | AmiCompatibilityPkg/CmosManager/CmosManager.c:432-458 | the word read is a given pointer if and only if each of the four registers holds that pointer's byte |
| ApiPointer.PointerByteIsDigit | AmiCompatibilityPkg/CmosManager/CmosManager.c:402-414 | the bytes written are the pointer's digits in base 256, the highest first |
| ApiPointer.AssembledIsNumber | AmiCompatibilityPkg/CmosManager/CmosManager.c:440-455 | the word read is the number with the registers as those digits |
| ApiPointer.SavedFacts | AmiCompatibilityPkg/CmosManager/CmosManager.c:391-417 | saving changes the four pointer registers and no other register, buffered byte or routing bit |
| ApiPointer.SavedKeepsCoherence | AmiCompatibilityPkg/CmosManager/CmosManager.c:391-417 | saving keeps the checksum as right as it was |
| Clock.BcdRoundTrip | AmiCompatibilityPkg/CmosManager/CmosAccess.c:1558-1585 | packing a byte in BCD and back reduces it by 160 |
| Clock.ClockDigits | AmiCompatibilityPkg/CmosManager/CmosAccess.c:1558-1565 | the nibbles of a packed byte are its two decimal digits, the tens digit reduced by 16 |
| Clock.TimeSetRegisters | AmiCompatibilityPkg/CmosManager/CmosAccess.c:1666-1688 | which clock register gets which field |
| Clock.TimeRoundTrip | AmiCompatibilityPkg/CmosManager/CmosAccess.c:1666-1722 | a time set is the time read, with no nanoseconds, if and only if the year is below 16000 and each field below 160 |
| Clock.TimeSetKeeps | AmiCompatibilityPkg/CmosManager/CmosAccess.c:1666-1688 | setting the time keeps the checksum and only restarts the clock |
| BootLaws.DetectedFacts | AmiCompatibilityPkg/CmosManager/CmosManager.c:603-749 | after detection the status says what the hooks answered and whether the checksum is right; only status registers were written |
| BootLaws.AnswersDecide | AmiCompatibilityPkg/CmosManager/CmosManager.c:655-749 | the status word from the lists of hooks: the last word on usability, any yes on boot kind and processor, a good battery only by the last word of some hook, the policy as given |
| BootLaws.DetectionKeeps | AmiCompatibilityPkg/CmosManager/CmosManager.c:655-749 | the nine flags that no hook speaks of stay |
| BufferIdle.LoadedIsIdle | AmiCompatibilityPkg/CmosManager/CmosAccess.c:1329-1337 | a load with hardware routing writes nothing to the buffer |
| PeiLaws.BufferedOnFacts | AmiCompatibilityPkg/CmosManager/CmosManager.c:340-361 | going over to the buffer ends coherent and shows each checksummed register's buffered byte |
| PeiLaws.FirstBootStage | AmiCompatibilityPkg/CmosManager/CmosManagerPei.c:464-482 | the first-boot stage reloads or leaves the registers, and the bad-checksum bit still tells the truth |
| PeiLaws.RecoveredStage | AmiCompatibilityPkg/CmosManager/CmosManagerPei.c:488-507 | recovery ends coherent in each of its three cases, and says which values are shown |
| PeiLaws.PeiEntryEstablishes | AmiCompatibilityPkg/CmosManager/CmosManagerPei.c:443-527 | from any registers and hooks: coherent, updates on, buffer in use in exactly the listed cases, and what each checksummed register shows |
| PeiLaws.PeiEntryModes | AmiCompatibilityPkg/CmosManager/CmosManagerPei.c:464-507 | on the hooks and the checksum found: exactly when the defaults are loaded, and exactly when the buffer is used |
| PeiLaws.PeiEntryFlags | AmiCompatibilityPkg/CmosManager/CmosManagerPei.c:443-527 | the status word after the entry: the hooks' answers, whether the installation worked, and nothing marked |
| PointerLaws.PointerAfterEntry | AmiCompatibilityPkg/CmosManager/CmosManagerPei.c:464-507 | what each register of the API pointer holds: its default if recovery reloads it, else the address's byte on the boot processor with usable registers, else what was there |
| PointerLaws.EntrySavesPointer | AmiCompatibilityPkg/CmosManager/CmosManagerPei.c:464-507 | on the boot processor with usable registers the pointer is the interface's address if and only if recovery reloads none of its registers with another byte |
| PointerLaws.SavedWithEveryTableExactly | AmiCompatibilityPkg/CmosManager/CmosManagerPei.c:479-502 | it is so for every table of defaults if and only if recovery reloads none of them |
| PointerLaws.EntryKeepsPointer | AmiCompatibilityPkg/CmosManager/CmosManagerPei.c:464-484 | elsewhere, and where none is reloaded, the pointer stays what it was |
| PointerLaws.MigrationSavesPointer | AmiCompatibilityPkg/CmosManager/CmosManagerPei.c:202-203 | the migration leaves the new address in the pointer, or with unusable registers every register as it was |
| CopyBounds.CopyCoversExactly | AmiCompatibilityPkg/CmosManager/CmosManager.c:346-356 | every register of the region has its cell in the copied table if and only if there is a default for each |
| CopyBounds.CoversRegionExactly | AmiCompatibilityPkg/CmosManager/CmosManager.c:346-356 | with one default per managed register: if and only if no register of the region is unmanaged |
| CopyBounds.CoversManagedExactly | AmiCompatibilityPkg/CmosManager/CmosManager.c:346-356 | with one default per managed register, every managed register has its cell if and only if no unmanaged one comes before a managed one |
| CopyBounds.OwnCellExactly | AmiCompatibilityPkg/CmosManager/CmosAccess.c:430-439 | after such an entry a register shows its own cell, whatever memory holds behind the copy, if and only if its position is inside |
| HandOverLaws.HandedOffFacts | AmiCompatibilityPkg/CmosManager/CmosManagerPei.c:103-145 | the migration copies the table entries, raises the memory flag, keeps every register but the pointer's and every other flag, hands over the checksum it has, and leaves the block in step |
| HandOverLaws.NoCopyAfterMigration | AmiCompatibilityPkg/CmosManager/CmosManagerPei.c:205-209 | the block's status has the memory flag, and going over to the buffer later takes no copy |
| MigrationLaws.ShownAfterMigration | AmiCompatibilityPkg/CmosManager/CmosManagerPei.c:123-142 | what each managed register shows after it: what it showed, or what the block's room held when it is buffered past the defaults |
| MigrationLaws.ViewKeptExactly | AmiCompatibilityPkg/CmosManager/CmosManagerPei.c:123-126 | a managed register keeps what it shows, whatever the room held, if and only if it is on the hardware or has its cell copied |
| MigrationLaws.DriftKeptExactly | AmiCompatibilityPkg/CmosManager/CmosManagerPei.c:123-126 | the stored sum stays as far off as it was, whatever the room held, if and only if that holds of all summed and both checksum registers |
| MigrationLaws.CoherenceKeptExactly | AmiCompatibilityPkg/CmosManager/CmosManagerPei.c:123-126 | so a right checksum stays right under the same condition and no other |
| MigrationLaws.UncarriedMovesDrift | AmiCompatibilityPkg/CmosManager/CmosManagerPei.c:123-126 | for each register that breaks it there is a room that moves the checksum off |
| StatusCommutes.DetectedAsCommutes | AmiCompatibilityPkg/CmosManager/CmosManager.c:655-749 | detection, its answer about the checksum given, neither reads nor writes any cell but the status registers |
| HandOverLaws.FlushesUnlessDuplicate | AmiCompatibilityPkg/CmosManager/CmosManagerDxe.c:475-519 | with usable registers DXE leaves the buffer, coherent, if and only if the manager was not marked as a duplicate, whatever PEI did since the migration |
| HandOverLaws.DxeFlags | AmiCompatibilityPkg/CmosManager/CmosManagerDxe.c:475-539 | from any state: whether the manager is installed, and whether the buffer stays in use, for each early return and each answer on usability |
| HandOverLaws.UnflushedKeepsBuffer | AmiCompatibilityPkg/CmosManager/CmosManagerDxe.c:480-492 | with unusable registers, or for a marked manager, DXE stays on the buffer, shows every checksummed register as PEI left it, and has the right checksum if and only if the buffer does under DXE's routing |
| HandOverLaws.UnflushedWritesNothing | AmiCompatibilityPkg/CmosManager/CmosManagerDxe.c:480-492 | and no checksummed register is written |
| HandOverLaws.UnusableRouting | AmiCompatibilityPkg/CmosManager/CmosAccess.c:517-526 | unusable registers put all of the region in the buffer, so that routing is the one with usability dropped |
| HandOverLaws.BufferedChecksumStays | AmiCompatibilityPkg/CmosManager/CmosAccess.c:517-526 | with both checksum registers buffered, losing the registers leaves the checksum as right as it was |
| HandOverLaws.DetectedSees | AmiCompatibilityPkg/CmosManager/CmosManager.c:655-749 | what detection judges in DXE is what PEI left, under DXE's routing |
| HandOverLaws.DeliveredValue | AmiCompatibilityPkg/CmosManager/CmosManagerDxe.c:494-519 | the flush leaves in a register what detection left at its rank, or what the register held when it is skipped or past the table |
| HandOverLaws.DeliveredRegister | AmiCompatibilityPkg/CmosManager/CmosManagerDxe.c:494-519 | a checksummed register with a default reads as the buffer's byte at its rank, unless that byte holds status bits |
| HandOverLaws.RankIsPosition | AmiCompatibilityPkg/CmosManager/CmosAccess.c:1400-1407 | rank is position if and only if no unmanaged register comes before |
| HandOverLaws.AlignedRegisterSurvives | AmiCompatibilityPkg/CmosManager/CmosManagerDxe.c:494-519 | with none before it, a checksummed register with a default reads the same in DXE as through the buffer in PEI |
| HandOverLaws.SurvivesExactlyWhenAligned | AmiCompatibilityPkg/CmosManager/CmosAccess.c:430-440 | a checksummed register does so for every byte buffered for it if and only if none comes before it and it has a default |
| HandOverLaws.OffChecksumDelivered | AmiCompatibilityPkg/CmosManager/CmosAccess.c:1418-1438 | a register off the checksum keeps its hardware byte through the flush if the restriction holds, and else gets the byte at its rank |
| HandOverLaws.OffChecksumSurvivesExactly | AmiCompatibilityPkg/CmosManager/CmosAccess.c:1418-1438 | one that PEI read from the hardware keeps whatever it holds if and only if the restriction holds or the table has no default for it |
| HandOverLaws.RestrictionSeenInPei | AmiCompatibilityPkg/CmosManager/CmosAccess.c:1418-1438 | under a restriction from PEI on, it holds if and only if the checksum PEI left is wrong and there was no first boot |
| HandOverLaws.BufferedOffChecksumSurvivesExactly | AmiCompatibilityPkg/CmosManager/CmosAccess.c:1418-1438 | one that PEI read from the buffer survives, whatever was buffered, if and only if the restriction does not hold, no unmanaged register comes before it and it has a default |
| HandOverLaws.NothingToFlush | AmiCompatibilityPkg/CmosManager/CmosManagerDxe.c:486-519 | without the buffer DXE leaves the checksum and every checksummed register as PEI left them |
| ShippedLayout.ShippedIsValid | AmiCompatibilityPkg/CmosManager/CmosBoard.ssp:91-132 | a layout around the registers the board file declares meets what is taken for granted; the status bits and data registers are placed here |
| ShippedLayout.DataIsLost | AmiCompatibilityPkg/CmosManager/CmosBoard.ssp:91-132 | in it, for every table that has a default for the register, a data byte of 1 shown in PEI is gone in DXE |
| ShippedLayout.ScratchIsLost | AmiCompatibilityPkg/CmosManager/CmosAccess.c:1418-1438 | in it, a hardware byte off the checksum is overwritten by the flush exactly when the checksum is right |
| ShippedLayout.DataIsForeign | AmiCompatibilityPkg/CmosManager/CmosManager.c:346-356 | in it, with one default per managed register, the data register shows a byte from behind the copy |
| ShippedLayout.MigrationSpoilsSum | AmiCompatibilityPkg/CmosManager/CmosManagerPei.c:123-126 | in it, the move can spoil the right checksum of any buffering manager |
| ShippedLayout.IdleBootSpoilsSum | AmiCompatibilityPkg/CmosManager/CmosManagerPei.c:123-126 | in it, a boot without any request goes over to the buffer coherent and can reach the end of PEI with a wrong checksum |
| Operations.FlagsAfter | AmiCompatibilityPkg/CmosManager/CmosManager.c:535-560 | what each public operation does to every flag that is not the checksum code's own |
| Operations.StaysSettled | AmiCompatibilityPkg/CmosManager/CmosManager.c:535-560 | each public operation leaves updates on, if and only if it is not the call to turn them off, and the hand-off block showing the status |
| Operations.RunStaysSettled | AmiCompatibilityPkg/CmosManager/CmosManager.c:535-560 | so does any run of them |
| Operations.StaysRight | AmiCompatibilityPkg/CmosManager/CmosManager.c:535-560 | each public operation keeps a right checksum right if and only if its condition, stated on the state before the call, holds |
| Operations.RunStaysRight | AmiCompatibilityPkg/CmosManager/CmosManager.c:535-560 | so does any run of writes, status changes, checks, loads, configurations, pointer saves and clock settings |
| Operations.StaysBuffering | AmiCompatibilityPkg/CmosManager/CmosManager.c:535-560 | a manager at work on the buffer stays so if and only if the operation does not touch the flags that make it so |
| Operations.RunStaysBuffering | AmiCompatibilityPkg/CmosManager/CmosManager.c:535-560 | any run of such operations reaches the hand-over still buffering, unmarked and with the block in step |
| Lifecycle.EntryBuffers | AmiCompatibilityPkg/CmosManager/CmosManagerPei.c:488-507 | the first entry that goes over to the buffer reaches the state the hand-over starts from |
| Lifecycle.EndOfPeiFacts | AmiCompatibilityPkg/CmosManager/CmosManagerPei.c:182-212 | the operations before the migration, the migration and the operations after it reach the hand-over still buffering, unmarked and in step, or still on the hardware and coherent |
| Lifecycle.RightToEndOfPei | AmiCompatibilityPkg/CmosManager/CmosManagerPei.c:182-212 | careful operations and a covering move leave the checksum right at the end of PEI, on the hardware or on the buffer |
| Lifecycle.BootDelivers | AmiCompatibilityPkg/CmosManager/CmosManagerDxe.c:462-539 | a whole boot: DXE ends on the hardware with the right checksum, or with unusable registers on the buffer with one that is right exactly if the buffer's is under DXE's routing; every checksummed register, if flushed every aligned one with a default, reads as at the end of PEI |
| Lifecycle.TokenReachesDxe | AmiCompatibilityPkg/CmosManager/CmosAccess.c:632-677 | what a token of such a register reads at the end of PEI it reads in DXE, usable registers or not |
| Lifecycle.RightThroughBoot | AmiCompatibilityPkg/CmosManager/CmosManagerDxe.c:462-539 | from power-on through both phases and any careful run in DXE the checksum is right there, provided that of a buffer DXE stays on is right under its routing |
| Lifecycle.DeadBatteryIsRight | AmiCompatibilityPkg/CmosManager/CmosManagerDxe.c:486-492 | which it is after a careful first phase without usable registers and a covering move |
| Lifecycle.SecondStartLosesBuffer | AmiCompatibilityPkg/CmosManager/CmosManager.c:616-622 | after one more PEI start the same state is not flushed: shown in DXE, but never in a register |
| CmosManager.CmosManager.BankReadWrite | AmiCompatibilityPkg/CmosManager/CmosAccess.c:233-273 | reaches the register if and only if some bank has it in its range and a board function or both ports, and then exactly that register |
| CmosManager.CmosManager.Scan | AmiCompatibilityPkg/CmosManager/CmosAccess.c:372-376 | stops at the first entry not below the address, or behind the table |
| CmosManager.CmosManager.NotChecksummed | AmiCompatibilityPkg/CmosManager/CmosAccess.c:366-382 | is membership in the no-checksum table |
| CmosManager.CmosManager.PhysicalReadWrite | AmiCompatibilityPkg/CmosManager/CmosAccess.c:295-350 | reads the register, or has the whole effect of a masked hardware update |
| CmosManager.CmosManager.BufferReadWrite | AmiCompatibilityPkg/CmosManager/CmosAccess.c:419-482 | the same on the buffer, by position, and an error outside the region |
| CmosManager.CmosManager.ReadWrite | AmiCompatibilityPkg/CmosManager/CmosAccess.c:503-542 | a read returns the buffer's byte if the buffer is on, unless the restriction leaves the register on the hardware; a write updates the same place |
| CmosManager.CmosManager.FindToken | AmiCompatibilityPkg/CmosManager/CmosAccess.c:143-162 | the index of a known token, 0 for exactly the unknown ones |
| CmosManager.CmosManager.ReadWriteEncodedToken | AmiCompatibilityPkg/CmosManager/CmosAccess.c:577-614 | size error changes nothing; otherwise the field is decoded from, or written to, the view |
| CmosManager.CmosManager.Read | AmiCompatibilityPkg/CmosManager/CmosAccess.c:632-677 | by register number: up to 0xe by reachability alone; from 0xf to 4095 a device error exactly with unusable registers, else by reachability; by token: refused exactly when unknown; the output is the value on success and untouched otherwise |
| CmosManager.CmosManager.Write | AmiCompatibilityPkg/CmosManager/CmosAccess.c:1234-1281 | the same ranges, and from 0xf up with usable registers the closed addresses are refused; a token write is refused exactly when unknown or oversize; a refused write changes nothing |
| CmosManager.CmosManager.CalculateUpdatedChecksum | AmiCompatibilityPkg/CmosManager/CmosAccess.c:1056-1103 | the adjusted sum for a checksummed register, and a note of whether it is one |
| CmosManager.CmosManager.ReadChecksum | AmiCompatibilityPkg/CmosManager/CmosAccess.c:811-823 | the stored sum, whatever the output variable held |
| CmosManager.CmosManager.FollowWithChecksum | AmiCompatibilityPkg/CmosManager/CmosAccess.c:336-346 | stores the new sum if updates are on and the register counts, else changes nothing |
| CmosManager.CmosManager.WriteChecksum | AmiCompatibilityPkg/CmosManager/CmosAccess.c:837-858 | stores the sum, in the hand-off block too, and always leaves the no-checksum flag clear |
| CmosManager.CmosManager.SetClearStatus | AmiCompatibilityPkg/CmosManager/CmosManager.c:223-256 | the status word, the status tokens, the diagnostic register and the hand-off block after a change |
| CmosManager.CmosManager.ReportStatus | AmiCompatibilityPkg/CmosManager/CmosManager.c:230-242 | each of the four tokens reads 1 if its own bit was reported and as before otherwise |
| CmosManager.CmosManager.SynchronizeLegacyStatusRegisters | AmiCompatibilityPkg/CmosManager/CmosAccess.c:959-1033 | a failure bit is set when asked and cleared only in DXE |
| CmosManager.CmosManager.SumManaged | AmiCompatibilityPkg/CmosManager/CmosAccess.c:1143-1182 | the single pass with two cursors gives the sum over the region minus both sets |
| CmosManager.CmosManager.CalculateChecksum | AmiCompatibilityPkg/CmosManager/CmosAccess.c:1118-1215 | returns the full sum and sets or clears the bad-checksum bit by comparing it with the stored one |
| CmosManager.CmosManager.LoadRegister | AmiCompatibilityPkg/CmosManager/CmosAccess.c:1370-1453 | keeps the loop's invariant: everything below is loaded, the index is 1 plus the rank |
| CmosManager.CmosManager.WriteDefaults | AmiCompatibilityPkg/CmosManager/CmosAccess.c:1370-1453 | all registers of the region loaded or skipped as the set specification says |
| CmosManager.CmosManager.LoadOptimalDefaults | AmiCompatibilityPkg/CmosManager/CmosAccess.c:1313-1495 | the whole load, and an error exactly when one was on record |
| CmosManager.CmosManager.ConfigureManager | AmiCompatibilityPkg/CmosManager/CmosManager.c:310-376 | buffer on (copied first, before memory, as far as there are defaults), off, neither, or an error for both; in memory the table stays where it is; the sum kept is of what is shown then |
| CmosManager.CmosManager.SaveApiPointer | AmiCompatibilityPkg/CmosManager/CmosManager.c:391-417 | the given or own address in the four registers, or an error when they are unusable |
| CmosManager.CmosManager.GetApiPointer | AmiCompatibilityPkg/CmosManager/CmosManager.c:432-458 | the word the four registers hold, or the caller's when they are unusable |
| CmosManager.CmosManager.SetDateTime | AmiCompatibilityPkg/CmosManager/CmosAccess.c:1666-1688 | clock stopped, fields written, clock running again |
| CmosManager.CmosManager.GetDateTime | AmiCompatibilityPkg/CmosManager/CmosAccess.c:1702-1722 | the time the clock registers hold |
| CmosManager.CmosManager.WriteFields | AmiCompatibilityPkg/CmosManager/CmosAccess.c:1675-1685 | the fields are written while the clock stands still |
| CmosManager.CmosManager.InPei | AmiCompatibilityPkg/CmosManager/CmosManagerPei.c:343-374 | a new manager over the tables in flash, with nothing known of the registers |
| CmosManager.CmosManager.InDxe | AmiCompatibilityPkg/CmosManager/CmosManagerDxe.c:175-207 | a new manager over the hand-off block's tables and status, without a link back |
| CmosManager.CmosManager.Poll | AmiCompatibilityPkg/CmosManager/CmosManager.c:655-735 | the lists of hooks asked one by one come to one answer each: the last on usability, any yes for the others |
| CmosManager.CmosManager.Detect | AmiCompatibilityPkg/CmosManager/CmosManager.c:655-749 | hooks and policy in the status word, then the checksum, then the battery by its last hook; the sum kept is the full sum |
| CmosManager.CmosManager.PeiEntry | AmiCompatibilityPkg/CmosManager/CmosManagerPei.c:443-527 | coherent, updates on, buffering in exactly the listed cases; the API pointer is the address unless recovery overwrites it; the outcome is that of the installation |
| CmosManager.CmosManager.StartAgain | AmiCompatibilityPkg/CmosManager/CmosManager.c:613-622 | a second start marks the manager, changes nothing else and succeeds |
| CmosManager.CmosManager.AfterMemoryEntry | AmiCompatibilityPkg/CmosManager/CmosManagerPei.c:182-212 | pointer saved, memory flag raised in the manager and the block, buffer and tables moved into the block, the layout unchanged |
| CmosManager.CmosManager.CreateDataHob | AmiCompatibilityPkg/CmosManager/CmosManagerPei.c:89-145 | a fresh block that the manager now works on, holding the same defaults, tables and status |
| CmosManager.CmosManager.DxeEntry | AmiCompatibilityPkg/CmosManager/CmosManagerDxe.c:462-539 | detection, the early returns, the flush when usable and buffering, and the outcome; the table stays the block's |
| CmosManager.MakeSuccessor | AmiCompatibilityPkg/CmosManager/CmosManagerDxe.c:175-207 | the DXE manager shares the registers and the block's buffer with the PEI one |
| WordWrap.WrappableExactly | AmiCompatibilityPkg/CmosManager/CmosMessages.c:338-351 | going back for a space never leaves the line if and only if no word is longer than 50 characters |
| WordWrap.WrapKeepsWords | AmiCompatibilityPkg/CmosManager/CmosMessages.c:294-351 | the words of the lines, in order, are the words of the message |
| WordWrap.LineHasItsWords | AmiCompatibilityPkg/CmosManager/CmosMessages.c:330-351 | a line takes whole words, and the next one starts with the rest |
| WordWrap.LinesAreFull | AmiCompatibilityPkg/CmosManager/CmosMessages.c:330-351 | the word a line breaks before would have gone beyond its 50 characters |
| WordWrap.Wrap | AmiCompatibilityPkg/CmosManager/CmosMessages.c:309-355 | the loop, which ends, writes inside the five 51-cell lines and leaves exactly the wrapped text in them |
| WordWrap.GoBack | AmiCompatibilityPkg/CmosManager/CmosMessages.c:338-345 | goes back to the last space, blanking what it takes off the line |
| NumberText.NumeralHasItsValue | Samedebug_old.c:280-298 | the digits' value is the number, and the first digit of a positive one is not zero |
| NumberText.CommasComeOut | Samedebug_old.c:284-297 | taking the commas out gives the ungrouped numeral |
| NumberText.CommasStandRight | Samedebug_old.c:284-301 | counted from the right, a comma stands at each group boundary and nowhere else, so none leads or doubles |
| NumberText.GroupedHasLength | Samedebug_old.c:284-301 | digits plus one separator per full group behind the first digit |
| NumberText.RenderedLength | Samedebug_old.c:302-322 | the larger of the width and digits, separators and sign; just the latter when left-justified without zero padding |
| NumberText.RenderedFitsBuffer | Samedebug_old.c:262-330 | any 32-bit value in base 10 or 16 with a width up to 159 fits the caller's 160 characters |
| NumberText.WriteDigits | Samedebug_old.c:280-301 | the loop leaves the grouped numeral reversed |
| NumberText.ReverseInPlace | Samedebug_old.c:325-329 | the two moving pointers reverse the text in place |
| NumberText.UintnToStr | Samedebug_old.c:262-330 | the buffer starts with the one text of the number in the base, padding, sign and grouped digits, then the terminator |
| NumberText.RenderedIsText | Samedebug_old.c:262-330 | the text is padding, sign and digits; the digits without commas evaluate in the base to the magnitude; commas stand every 4 or 3; sign and padding are as the flags say |
| NumberLaws.OnlyText | Samedebug_old.c:262-330 | no other text meets that description |
| NumberLaws.NumeralIsUnique | Samedebug_old.c:280-298 | a numeral without a leading zero is the one written for its value |
| NumberText.StrToNumber | Samedebug_old.c:333-347 | the wrapped sum of the digits and where it stopped |
| NumberText.ParsedPrefix | Samedebug_old.c:333-347 | a text of digits followed by a non-digit is read as their value modulo 2 to the 32, and up to there |
| NumberText.ParsedIsValue | Samedebug_old.c:333-347 | a text of digits is read to its end, as its value modulo 2 to the 32 |
| NumberText.RoundTripExactly | Samedebug_old.c:262-347 | a decimal text reads back as its number, to its end, if and only if it has no sign, no separator and no blanks in front |
| LineSender.SentExactly | Samedebug_old.c:230-259 | the string arrives with each line feed preceded by a carriage return if and only if no line exceeds 254 characters |
| LineSender.ShortLinesExactly | Samedebug_old.c:243-259 | those are the strings without 254 characters in a row that are no line feed and followed by another one |
| LineSender.SentLineIsWhole | Samedebug_old.c:230-259 | a longer line loses characters: its end is sent, as many as its length modulo 256, or nothing for 255 |
| LineSender.Port.SendStrLen | Samedebug_old.c:230-240 | sends all but the last of the counted characters, expanded |
| LineSender.OneMoreExpanded | Samedebug_old.c:230-240 | each character is sent as it is, a line feed with a carriage return before it |
| LineSender.Port.SendString | Samedebug_old.c:243-259 | sends each line as its 8-bit length allows |
| ShadowRam.RunShows | AmiCRBPkg/CRB/CRBLib.c:54-117 | over any run, a socket valid throughout shows its original registers when closed and those with the enable bits when open |
| ShadowRam.RunSkips | AmiCRBPkg/CRB/CRBLib.c:70-80 | a socket never valid is left alone |
| ShadowRam.RestoresExactly | AmiCRBPkg/CRB/CRBLib.c:94-117 | opening and closing restores a socket if and only if it was as valid at both |
| ShadowRam.ShadowRamControl.RuntimeShadowRamWrite | AmiCRBPkg/CRB/CRBLib.c:54-117 | one call on every valid socket, and the flag it leaves |

## Left out

- Port and memory-mapped I/O: a bank is an array of registers.
- CmosManager.CmosManager.BankReadWrite: does not model a board function's error, after which the physical access goes on with an undefined value, nor the truncation of the index port to 8 bits (CmosAccess.c:256), by which a register number from 256 up reaches a lower register of the same ports.
- FlatStore.RawWriteUnseen: for the same reason does not cover a register number from 256 up that a port bank serves.
- Hooks, recovery policy and installation are parameters (`Answers`, `Hooks`).
- Locating the interface, events, notifications, allocation failure and trace output: taken to succeed or to do nothing.
- Status writes to a Setup variable and the event handlers that clear status tokens (CmosManagerDxe.c:269-439), and SMM: not modelled.
- ReadCmosStatusBytes, CmosGetTokenFromRegister and ReadCmosBytes: simple readers that would add easy members only.
- CmosManager.CmosManager.ConfigureManager: what memory holds behind a short copy is a parameter, and a write there changes that cell only; what else the memory belongs to is not modelled.
- CmosManager.CmosManager.CreateDataHob: does not promise that the block's checksum is the stored one, because the copied field is the sum last computed and may be stale.
- CmosManager.CmosManager.AfterMemoryEntry: takes the interface to be found; what lies behind the second copied table is a parameter.
- HandOverLaws.DeliveredRegister: leaves out a register whose rank falls on the position of a status token, whose buffered byte the status changes of the hand-over may mark; `HandOverLaws.DeliveredValue` covers it, and so do the two exact conditions. The same holds for `HandOverLaws.OffChecksumDelivered`.
- WordWrap.Wrap: requires the text to fit five lines, because the program stops on an assertion at the sixth; drawing the popup is not modelled.
- Clock.TimeRoundTrip: the clock does not tick between setting and reading; the index and data ports are abstracted to a register each.
- ShadowRam.RunShows: requires a stable validity and no other writer; socket addresses are abstracted to an index.
- Formatting with a variable argument list (Samedebug_old.c:350-431): not part of this model; the formatter, the parser and the sender it calls are.
