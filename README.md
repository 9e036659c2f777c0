# flash_management driver core in Dafny

This project models three modules of the STM32L432 firmware that manages a
Micron SPI-NAND flash chip:

- **SpiNand** (`spi_nand.dfy`) is the chip bring-up of `spi_nand.c`.
  `spi_nand_init` deselects the chip, waits, and resets it. It then polls the
  status register for the operation-in-progress flag, waits again, and reads
  the manufacturer and device ID. Last, it unlocks all blocks and enables
  on-die ECC. Each of these steps is one transfer between a chip-select low
  (select) and a chip-select high (deselect). Bring-up stops at the first step
  that fails and returns that step's code: `Ok`, `BadSpi`, `Timeout` or
  `DeviceId`, which are 0, -1, -2 and -3.
- **SysTime** (`sys_time.dfy`) is the millisecond counter of `sys_time.c`. It
  is a 32-bit unsigned counter that the SysTick interrupt advances. Its
  `sys_time_is_elapsed` test stays correct when the counter wraps around.
- **ShellCmd** (`shell_cmd.dfy`) is the command processor of `shell_cmd.c`.
  It splits a received line, in place, into at most eight arguments separated
  by spaces. Each break is overwritten with a NUL. It looks the first argument
  up in the command table and calls that command's handler.
- **Wrappers** (`wrappers.dfy`) holds the `Option` type.

The SPI transport (`spi.h`) and the chip behind it are an oracle, `Env`:

- `Env.spi(n)` is the answer to the n-th transport call: its status and the
  bytes clocked in on MISO.
- `Env.clock(n)` is the counter value as read after n transport calls.

The driver routines are methods on a `Bus`. The bus records, in order, every
select, deselect, transfer and delay as a trace of `Event`s. Each method is
proved against a pure function of `Env` and of the call number it starts at.
That function gives the return code, the events emitted and the next call
number. The lemmas prove the bring-up properties about these functions, and
they hold for every `Env`.

Two defects of this revision are modelled as written:

- `get_feature` sends opcode `CMD_SET_FEATURE` (0x1F) instead of the chip's
  get-feature opcode 0x0F. The model transmits `[0x1F, reg, 0]`.
- `OIP_BIT` is defined as 0 but is used as a mask. `status & OIP_BIT` is
  therefore always 0. The reset poll ends after its first status read,
  whatever the result: a failed read breaks out with `BadSpi`, a successful
  one with `Ok`. Reset therefore never returns `Timeout`. `PollVerdict` and `ResetRun`
  prove this, and `InitResult` proves that bring-up never returns it either.

In `reset()` no delay separates the reset command from the status poll: the
poll starts right after the deselect. The only settle delay comes after
`reset()` returns, in `spi_nand_init`. The model follows the code.

## Model

| member | source | states |
|---|---|---|
| SysTime.Wrap | src/modules/sys_time.c:17 | uint32_t arithmetic: the exact value reduced modulo 2^32, as a case per range |
| SysTime.IsElapsed | src/modules/sys_time.c:47-73 | the wrap-around case analysis returns true exactly when the wrapping difference `current - start` is at least `duration` |
| SysTime.ZeroDurationElapsed | src/modules/sys_time.c:41-46 | a zero duration has always elapsed, whatever the counter and start are |
| SysTime.CounterWrappedEndNot | src/modules/sys_time.c:52-59 | the counter wrapped but `start + duration` did not: the duration has elapsed |
| SysTime.EndWrappedCounterNot | src/modules/sys_time.c:61-68 | the counter did not wrap but `start + duration` did: the duration has not elapsed |
| SysTime.ElapsedMeasuresTicks | src/modules/sys_time.c:47-73 | after fewer than 2^32 ticks since `start`, the test is true exactly when ticks >= duration, wherever `start` lies |
| SysTime.Clock.constructor | src/modules/sys_time.c:17 | the counter starts at 0 |
| SysTime.Clock.Init | src/modules/sys_time.c:20-29 | sys_time_init resets the counter to 0 |
| SysTime.Clock.Increment | src/modules/sys_time.c:31-34 | one tick more; the counter is the tick count modulo 2^32, so 2^32-1 wraps to 0 |
| SysTime.Clock.GetMs | src/modules/sys_time.c:36-39 | returns the counter and changes nothing |
| SysTime.Clock.IsElapsedNow | src/modules/sys_time.c:47-50 | takes one snapshot of the counter; true exactly when the wrapping difference from `start` is at least `duration` |
| SysTime.Clock.Delay | src/modules/sys_time.c:75-79 | over the observed snapshots: returns at the first poll that is elapsed relative to the counter on entry; it is still waiting exactly when no snapshot is elapsed |
| SpiNand.Ret.Value | src/modules/spi_nand.h:17-20 | the return codes are 0, -1, -2 and -3; only Ok is 0 |
| SpiNand.Received | src/modules/spi_nand.c:153 | the receive buffer has the transfer's length; a full transfer received exactly the first n MISO bytes; after a short one the bytes that arrived fill its start and the rest stays zero |
| SpiNand.SetFeatureRun | src/modules/spi_nand.c:188-202 | transmits `[0x1F, reg, data]` between select and deselect; Ok exactly when the transport returned OK, otherwise BadSpi; one transport call |
| SpiNand.GetFeatureRun | src/modules/spi_nand.c:204-224 | transmits `[0x1F, reg, 0]` between select and deselect; Ok exactly when the transport returned OK, and only then is the output the third received byte; otherwise BadSpi and the output is unchanged |
| SpiNand.ReadIdRun | src/modules/spi_nand.c:149-176 | one 4-byte write-read of `[0x9F, 0, 0, 0]` between select and deselect; Ok exactly when the transfer succeeds and received bytes 2 and 3 are 0x2C and 0x14; DeviceId exactly when it succeeds with another ID; BadSpi exactly when it fails |
| SpiNand.PollVerdict | src/modules/spi_nand.c:127-144 | one pass of the OIP poll always stops: it passes up a read error unchanged and is Ok otherwise, because the mask OIP_BIT is 0 |
| SpiNand.ResetRun | src/modules/spi_nand.c:114-147 | a failed reset write returns BadSpi after exactly that one framed write; otherwise the framed write of `[0xFF]` is followed by exactly one get_feature of the status register 0xC0, and the result is Ok exactly when that read succeeds; never Timeout |
| SpiNand.InitRun | src/modules/spi_nand.c:63-88 | bring-up always starts with a deselect and the reset delay, emits at least one framed transfer, and makes between one and five transport calls |
| SpiNand.TransactionFrames | src/modules/spi_nand.c:119-121 | a select/transfer/deselect triple is framed and transmits exactly its transfer's bytes |
| SpiNand.FramesAppend | src/modules/spi_nand.c:63-88 | the frames of two consecutive traces are the frames of the first followed by those of the second |
| SpiNand.FramedAppend | src/modules/spi_nand.c:63-88 | appending a framed trace to a framed trace gives a framed trace |
| SpiNand.Extend | src/modules/spi_nand.c:63-88 | both append properties at once |
| SpiNand.InitAttempts | src/modules/spi_nand.c:63-88 | the bring-up attempts between one and five transfers |
| SpiNand.InitPieces | src/modules/spi_nand.c:63-88 | each piece of the bring-up trace is framed and carries its own frame |
| SpiNand.InitOrder | src/modules/spi_nand.c:63-88 | bring-up transmits, in order, the reset, status read, read-ID, unlock and ECC-enable frames, each alone between select and deselect; it stops after the first failure, sending exactly InitAttempts frames with one transport call for each |
| SpiNand.InitAfterReset | src/modules/spi_nand.c:71-88 | InitOrder's frame and framing claims, once the reset command has succeeded |
| SpiNand.InitEventsAfterStatus | src/modules/spi_nand.c:73-88 | the bring-up trace after a completed reset, by how far the remaining steps get |
| SpiNand.InitAfterStatus | src/modules/spi_nand.c:73-88 | InitOrder's frame and framing claims, once reset has completed |
| SpiNand.InitResult | src/modules/spi_nand.c:63-88 | bring-up returns Ok exactly when all four steps return Ok; otherwise it returns the first failing step's code; it never returns Timeout |
| SpiNand.Bus.constructor | src/modules/spi_nand.c:16 | no transport calls made and nothing recorded yet |
| SpiNand.Bus.CselSelect | src/modules/spi_nand.c:109-112 | records a select; no transport call |
| SpiNand.Bus.CselDeselect | src/modules/spi_nand.c:104-107 | records a deselect; no transport call |
| SpiNand.Bus.SpiWrite | src/modules/spi_nand.c:120 | the status is the oracle's answer to this call; records the write and uses one call |
| SpiNand.Bus.SpiWriteRead | src/modules/spi_nand.c:157 | the status and the received bytes come from the oracle's answer to this call; records the transfer and uses one call |
| SpiNand.Bus.Now | src/modules/spi_nand.c:126 | the counter snapshot at the current call number; changes nothing |
| SpiNand.Bus.Delay | src/modules/spi_nand.c:70 | records the delay; no transport call |
| SpiNand.SetFeature | src/modules/spi_nand.c:188-202 | return code, trace and call count are those of SetFeatureRun |
| SpiNand.GetFeature | src/modules/spi_nand.c:204-224 | return code, output byte, trace and call count are those of GetFeatureRun |
| SpiNand.ReadId | src/modules/spi_nand.c:149-176 | return code, trace and call count are those of ReadIdRun |
| SpiNand.UnlockAllBlocks | src/modules/spi_nand.c:178-181 | is set_feature(0xA0, 0x00) |
| SpiNand.EnableEcc | src/modules/spi_nand.c:183-186 | is set_feature(0xB0, 0x10): only the ECC bit is set |
| SpiNand.Reset | src/modules/spi_nand.c:114-147 | the `for (;;)` poll loop ends; return code, trace and call count are those of ResetRun |
| SpiNand.Init | src/modules/spi_nand.c:63-88 | return code, trace and call count are those of InitRun |
| ShellCmd.LookupFrom | src/modules/shell_cmd.c:118-125 | the first table entry from `from` on with that exact name, or none when no entry there has it |
| ShellCmd.Lookup | src/modules/shell_cmd.c:118-125 | the first table entry with that exact name, or none when no entry has it |
| ShellCmd.LookupTable | src/modules/shell_cmd.c:38-42 | the table answers "help" with entry 0, "read_page" with entry 1, and nothing else |
| ShellCmd.FindCommand | src/modules/shell_cmd.c:118-125 | the loop returns the first exact match; it returns none exactly when no entry matches |
| ShellCmd.Step | src/modules/shell_cmd.c:55-65 | one pass advances i by one; it writes NUL at i exactly when i is a break; at a break it records the pending argument, if any, and clears `next_arg`; elsewhere nothing is recorded and `next_arg` is set |
| ShellCmd.Loop | src/modules/shell_cmd.c:54 | the loop ends at `len` or with eight arguments, never past either; it only appends to argv and keeps the buffer's length |
| ShellCmd.StepTerminated | src/modules/shell_cmd.c:56-57 | one pass overwrites exactly the break at i with NUL |
| ShellCmd.StepRecorded | src/modules/shell_cmd.c:58-61 | recorded arguments stay genuine arguments of the line, in order |
| ShellCmd.StepComplete | src/modules/shell_cmd.c:56-61 | every argument ending at or before i has been recorded |
| ShellCmd.StepPending | src/modules/shell_cmd.c:63-65 | the pending `next_arg` is an argument start with no break after it so far |
| ShellCmd.StepKeepsInv | src/modules/shell_cmd.c:54-66 | one pass of the loop body keeps the tokenizer invariant |
| ShellCmd.LoopKeepsInv | src/modules/shell_cmd.c:54-66 | the whole loop keeps the invariant and ends at `len` or at eight arguments |
| ShellCmd.Tokenize | src/modules/shell_cmd.c:51-66 | at most eight arguments; scanning reaches `len` unless eight are recorded, and with eight it stops right after the eighth one's terminator; the recorded starts are exactly the arguments of the scanned part, left to right; only the scanned breaks change, each to NUL |
| ShellCmd.LastPositionNeverStarts | src/modules/shell_cmd.c:56 | no argument starts at `len - 1` or at a space, so a one-character argument there is dropped |
| ShellCmd.CString | src/modules/shell_cmd.c:70 | the C string at a position: a NUL-free prefix of the buffer from there |
| ShellCmd.CStringUpTo | src/modules/shell_cmd.c:57 | the C string up to a NUL is the text before it |
| ShellCmd.ArgumentText | src/modules/shell_cmd.c:54-66 | on a NUL-free line, each argument's C string after tokenizing is the original text from its start to its break |
| ShellCmd.Dispatch | src/modules/shell_cmd.c:68-78 | nothing happens without arguments; the handler is called exactly when the first argument names a table entry, and then gets argc and the argument strings; otherwise the unknown name is reported |
| ShellCmd.ReadPageHandler | src/modules/shell_cmd.c:92-104 | a read is requested exactly when argc is 4, from arguments 1, 2 and 3; any other count only reports usage |
| ShellCmd.Process | src/modules/shell_cmd.c:48-79 | the in-place loop leaves the buffer and argv as Tokenize says; every start is below `len - 1`; the action is Dispatch's |

## Left out

- `csel_setup` (GPIO clock enable and pin mode) is hardware configuration. It has no observable effect in the trace.
- The SysTick and NVIC set-up in `sys_time_init` is hardware configuration. Only the reset of the counter to 0 is modelled.
- Clock.Delay: the termination of `sys_time_delay` depends on future interrupts. It is modelled over a finite sequence of observed counter snapshots. Its promise (it returns once the duration has elapsed) is stated over those snapshots only.
- The interrupt runs concurrently with everything else. The model replaces this with the counter snapshots `Env.clock(n)`, taken after n transport calls. In `SpiNand`, each `sys_time_delay` is only recorded as a `Wait` event.
- The implementation of `spi.h` (`spi_write`, `spi_write_read`) is not part of this model. Its answers are the oracle `Env.spi`, and no bus timing is modelled.
- The status byte in `reset` is uninitialised in C. It starts at 0 in the model, which is only visible when the status read fails, and then it is never read.
- The sscanf parsing of the read_page arguments, the call to `spi_nand_read_page`, `page_buffer`, `print_bytes`, and all shell printing are left out. `spi_nand_read_page` and `SPI_NAND_PAGE_SIZE` are not declared in the driver header of this revision.
- The text printed by `command_help` is output only.
- Page read, program and erase are not implemented in this revision of `spi_nand.c`.
- Reset: takes the counter snapshot (`bus.Now()`) in every pass of the poll, where the source reads the counter only when the OIP mask is not clear. Taking the snapshot has no side effect, so the outcome is the same.
