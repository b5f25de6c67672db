# IceBroLite: 6502 mnemonics and the VICE binary-monitor client, in Dafny

IceBroLite is a debugger front end for the VICE Commodore 64 emulator. This project models
two parts of it.

- `src/Mnemonics.cpp` is the 6502 side. It holds the opcode table, the instruction length
  (`InstructionBytes`, `ValidInstructionBytes`), the effective address an instruction refers
  to (`InstrRefAddr`), and the watch expressions an instruction offers (`GetWatchRef`). It
  also holds the one-instruction disassembler (`Disassemble`) and the one-line assembler
  (`Assemble`).
- `src/ViceInterface.cpp` is the client of VICE's binary monitor protocol. It covers:
  - the request counter and the list of requests awaiting a reply;
  - the heartbeat that pings when a reply is overdue (`Tick`);
  - the execution-control commands, which are sent only while connected and, as needed,
    stopped or running;
  - register and memory requests;
  - the receive loop, which cuts the byte stream into frames and dispatches each reply to
    its handler;
  - the handlers for register, memory, checkpoint and stop/resume replies.

The 64 KiB memory is a sequence of 65 536 bytes, and every address computation wraps
modulo 2^16, as `uint16_t` does. The client is a value that each operation maps to the next
value. What the C code hands to the socket is appended to `sent`. The calls it makes into
the breakpoint store and the screen view are appended to `store`.

Files, one module each:

| file | module | models |
|---|---|---|
| words.dfy | `Words` | bytes, 16- and 32-bit words, truncations, little-endian words |
| outcomes.dfy | `Outcomes` | `Option` and `Result` |
| memory.dfy | `Memory` | the 64 KiB memory, reads and writes with wrap-around |
| opcodes.dfy | `Opcodes` | addressing modes, mnemonic spellings (`zsMNM`), the opcode table (`a6502_ops`) |
| disasm.dfy | `Disasm` | instruction length, `InstrRefAddr`, `GetWatchRef`, `Disassemble` |
| asm.dfy | `Asm` | `Assemble`: scanning, mnemonic search, operand syntax, mode choice, encoding |
| framing.dfy | `Framing` | cutting the reply stream into frames |
| protocol.dfy | `Protocol` | command codes, `ViceBinCmdName`, the commands the client sends |
| client.dfy | `Client` | client state, pending list, `Tick`, the public `Vice*` commands |
| registers.dfy | `Registers` | `ViceSetRegisters` and `updateRegisters` |
| replies.dfy | `Replies` | reply dispatch, `updateGetMemory`, `handleCheckpointGet`, `handleStopResume`, one turn of the receive loop |

## Model

| member | source | states |
|---|---|---|
| Opcodes.TableWellFormed | src/Mnemonics.cpp:341-598 | For every one of the 256 table entries, the operand size matches the addressing mode. Invalid opcodes take no operand. Branches are documented instructions. No entry uses the accumulator mode (`AM_ACC`) or the `($12:y)` mode (`AM_ZP_REL_Y`). `JSR` exists only in the absolute form. |
| Disasm.InstructionBytes | src/Mnemonics.cpp:600-608 | The length is between 1 and 3. It is 1 for an opcode not shown as an instruction (invalid, or undocumented with illegals off). Otherwise it is 1 plus the operand size of the opcode's mode. |
| Disasm.ValidInstructionBytes | src/Mnemonics.cpp:610-616 | The result is 0 exactly when the opcode is not shown as an instruction. Otherwise it equals `InstructionBytes`. |
| Disasm.ZeroPagePointerStaysInPageZero | src/Mnemonics.cpp:767-771 | For `($12,x)`, `($12),y` and `($12:y)`, two memories that agree on page zero and on the instruction's two bytes give the same effective address. The pointer never reads its high byte from $0100. |
| Disasm.IndirectJumpStaysInPage | src/Mnemonics.cpp:798-802 | For `JMP ($xxxx)`, only the instruction's three bytes and the page holding the pointer decide the target. |
| Disasm.IndirectJumpPageQuirk | src/Mnemonics.cpp:798-802 | With the pointer at $xxFF, the target's high byte is read from $xx00 of the same page. |
| Disasm.IndexedZeroPageDoesNotWrap | src/Mnemonics.cpp:786-815 | For `$12,x` and `$12,y`, the low byte agrees with the CPU's zero-page address. The result leaves page zero exactly when the index addition carries. |
| Disasm.BranchTarget | src/Mnemonics.cpp:816-819 | A branch refers to the byte after the instruction plus the signed displacement. The distance is within -128..127 modulo 2^16, and its low byte is the displacement byte. |
| Disasm.GetWatchRef | src/Mnemonics.cpp:681-686 | The corrected definition (Findings row 3): A watch style is offered exactly when its bit is in the mask of the instruction's addressing mode (`AddrMode_WatchRefs`). The returned expression carries that style. |
| Disasm.WatchRefOperandWidth | src/Mnemonics.cpp:663-679 | A style that prints the operand word is offered only by three-byte instructions. The other styles are offered only by two-byte ones. |
| Disasm.WatchRefIsReference | src/Mnemonics.cpp:686-750 | The corrected definition (Findings row 3): The watch expressions `[$w]`, `[$z]` and `*$p+y` name the address `InstrRefAddr` computes, before indexing by X or Y. |
| Disasm.Disassemble | src/Mnemonics.cpp:895-966 | The returned length equals `InstructionBytes` whatever is shown. Hex bytes are the instruction's bytes. An opcode not shown as an instruction becomes `dc.b xx` (two hex digits with no `$`); otherwise the line has the table's mnemonic and mode and an operand exactly when the instruction has operand bytes. `argOffs` is set exactly for instruction lines, to the column after the byte field (10 when bytes are shown), the mnemonic and one space. A target is reported exactly for branches and for opcodes $20 and $4C. |
| Disasm.DisassembleTargetIsReference | src/Mnemonics.cpp:923-953 | The branch or jump target `Disassemble` reports equals the address `InstrRefAddr` computes, whatever the index registers hold. |
| Disasm.DisassembleOperandIsReference | src/Mnemonics.cpp:923-960 | The printed number locates the referenced address. It is the address itself for direct modes, the base the index is added to for indexed modes, and the place the pointer is stored for indirect modes. |
| Asm.Strtol | src/Mnemonics.cpp:1030 | When no digits are read, the value is 0 and the end stays where reading started. Otherwise the end lies past the start and is not a digit of the base. The value read is stated by `Asm.ReadNumber`. |
| Asm.ReadHex | src/Mnemonics.cpp:1017-1030 | A number printed as the disassembler prints operands (`%02x`, `%04x`: lower-case hex digits), followed by anything but a hex digit, reads back as itself. The reading ends right after the digits. |
| Asm.ReadNumber | src/Mnemonics.cpp:1030 | A signed number in base 10 or 16, after any white space, written as a minus sign when negative and then its digits, reads back as that number when no digit follows. The reading ends right after the digits. |
| Asm.FindMnemonic | src/Mnemonics.cpp:983-991 | The result is the lowest-numbered mnemonic whose spelling starts with the token, ignoring case. There is none exactly when no spelling does. |
| Asm.OpcodeForIsLast | src/Mnemonics.cpp:994-1003 | The opcode chosen for a mnemonic and mode is the highest table entry encoding them. There is none exactly when no entry does. |
| Asm.ParseStatement | src/Mnemonics.cpp:970-1054 | A line with no token fails with `NoMnemonic`, and a token that starts no spelling fails with `UnknownMnemonic` (both if and only if). A parsed statement's mnemonic is the first match and never the invalid placeholder. |
| Asm.ChooseMode | src/Mnemonics.cpp:1055-1075 | It fails only with a branch out of range or a mode not available. A branch out of range happens only for a mnemonic with a branch form whose displacement from `addr + 2` lies outside -128..127. A chosen branch carries that displacement; every other mode carries the number on the line. |
| Asm.ChooseModeWithFallback | src/Mnemonics.cpp:1065-1069 | The corrected mode choice. It agrees with the choice as written wherever the mnemonic has the chosen mode. Where the chosen zero-page form is missing, only the mode may differ and the value is kept. |
| Asm.Encode | src/Mnemonics.cpp:1074-1077 | Encoding succeeds exactly when the mnemonic has an opcode in the chosen mode. The opcode encodes that mnemonic and mode. |
| Asm.Assemble | src/Mnemonics.cpp:968-1086 | `Assemble` as written, with the mode choice as written. The count is 0 exactly when the line is rejected, and then memory is unchanged. Outside the written range, memory is unchanged in every case. |
| Asm.AssembleWithFallback | src/Mnemonics.cpp:968-1086 | The corrected assembler, using the fallback mode choice. The count is 0 exactly when the line is rejected, and then memory is unchanged. Outside the written range, memory is unchanged in every case. |
| Asm.AssembleAgrees | src/Mnemonics.cpp:1055-1086 | On every line `Assemble` accepts, the corrected assembler reads the same encoding and leaves the same memory. |
| Asm.AssembleThenDisassemble | src/Mnemonics.cpp:895-1086 | Disassembling what `Assemble` wrote gives back the mnemonic, the mode and the number on the line, with the length `Assemble` returned. A branch reports the target on the line. |
| Asm.AssembleWithFallbackThenDisassemble | src/Mnemonics.cpp:895-1086 | The same round trip for the corrected assembler, on every line it accepts. |
| Asm.AssembleLength | src/Mnemonics.cpp:1077-1085 | The count `Assemble` returns is the length `InstructionBytes` finds at the address afterwards. |
| Asm.AssembleWithFallbackLength | src/Mnemonics.cpp:1077-1085 | The same for the corrected assembler. |
| Asm.AssembleFirstMatch | src/Mnemonics.cpp:983-988 | The mnemonic `Assemble` encodes is the first whose spelling starts with the token. |
| Asm.AssembleFailure | src/Mnemonics.cpp:979-1075 | A line `Assemble` rejects writes nothing. Each kind of rejection (no mnemonic, unknown mnemonic, branch out of range, mode not available in the mode chosen as written) happens under its stated condition. |
| Asm.AssembleWithFallbackFailure | src/Mnemonics.cpp:979-1075 | The same for the corrected assembler, where a mode is not available in the mode the corrected choice picks. |
| Asm.Jsr80AsWritten | src/Mnemonics.cpp:1065-1069 | `Assemble` rejects `jsr $80`: it writes 0 bytes and the mode is not available. |
| Asm.Jsr80 | src/Mnemonics.cpp:1065-1069 | The corrected assembler writes `jsr $80` as the three bytes of `JSR $0080`. |
| Asm.FallbackExtendsAsWritten | src/Mnemonics.cpp:1065-1075 | Every line `Assemble` accepts is encoded identically with the fallback. A line rejected only for a missing zero-page form is encoded in the absolute form when the mnemonic has one. |
| Memory.PokeAllEffect | src/Mnemonics.cpp:1079-1083 | A write of up to 64 KiB puts each byte at its own wrapped address and leaves all other addresses alone. |
| Framing.Extract | src/ViceInterface.cpp:632-713 | The frames and the rest concatenate back to the buffer. Every frame is complete (STX and exactly its declared size). The rest does not start a complete frame. |
| Framing.ExtractLoop | src/ViceInterface.cpp:632-713 | The loop that takes whole frames off the buffer and compacts it computes exactly `Extract`. |
| Framing.ExtractUnique | src/ViceInterface.cpp:632-635 | Any split of the buffer into complete frames and a rest that does not start a frame is the one `Extract` returns. |
| Framing.ChunkIndependent | src/ViceInterface.cpp:630-708 | Extracting from the whole stream gives the same frames and rest as extracting from the first part, then from the leftover plus the rest of the stream. |
| Framing.StrayByteBlocks | src/ViceInterface.cpp:632 | A leftover that does not start with STX is never consumed, whatever arrives after it. |
| Protocol.CmdName | src/ViceInterface.cpp:422-429 | The name is "?" exactly when no table entry has the code. Otherwise it is the name of a table entry with that code. |
| Protocol.CmdNameOfEntry | src/ViceInterface.cpp:123-152 | Every table entry is found under its own code, so no code is listed twice. |
| Protocol.CommandsAreNamed | src/ViceInterface.cpp:123-152 | Every command the client sends has a printable name. |
| Client.Answer | src/ViceInterface.cpp:648-658 | A reply with the sentinel ID leaves the pending list alone. Any other reply removes the first entry with its ID, and nothing else. An ID that is not pending changes nothing. |
| Client.Send | src/ViceInterface.cpp:969-1004 | The message goes out under the next request ID. With `wantResponse`, that ID joins the pending list with a zero counter. Nothing else changes. |
| Client.SendKeepsOrder | src/ViceInterface.cpp:969-1004 | Sending keeps the pending list oldest first (by age modulo 2^32), as long as no pending request is about to be overtaken by the counter. |
| Client.AnswerKeepsOrder | src/ViceInterface.cpp:648-658 | A reply keeps the pending list oldest first. |
| Client.OrderedIdsDistinct | src/ViceInterface.cpp:648-658 | In a list kept oldest first, the pending IDs are all different, so a reply's ID names at most one request. |
| Client.Tick | src/ViceInterface.cpp:936-967 | Every counter goes up by one. If one then exceeds 100, every counter restarts at 0 and one ping goes out while connected, using the next request ID. Otherwise nothing is sent and the request ID is kept. The requests themselves, and counters bounded by 100, are kept. Nothing else changes (memory, registers, store, registry, state flags). |
| Client.Ping | src/ViceInterface.cpp:184-191 | A ping goes out only while connected, and never waits for a reply. |
| Client.Disconnect | src/ViceInterface.cpp:203-209 | While connected, it requests the close and pings under the next request ID, and nothing else changes. Otherwise nothing changes at all. |
| Client.Quit | src/ViceInterface.cpp:211-219 | While connected, it sends quit and then ping under the next two IDs, neither awaiting a reply, and nothing else changes. Otherwise nothing changes at all. |
| Client.Teardown | src/ViceInterface.cpp:732-738 | After the loop ends nothing is pending, the memory registry is empty, and the client is neither connected, running nor halted. |
| Client.Break | src/ViceInterface.cpp:221-227 | A registers request goes out, awaiting a reply, only while running. Otherwise nothing changes. |
| Client.Go | src/ViceInterface.cpp:229-237 | Hit marks are always cleared. The resume command goes out, awaiting a reply, only while connected and stopped. |
| Client.Step | src/ViceInterface.cpp:239-259 | Hit marks are always cleared. The step (or step-over) command goes out only while connected and stopped. |
| Client.StepOut | src/ViceInterface.cpp:261-270 | Hit marks are always cleared. The step-out command goes out only while connected and stopped. |
| Client.RunTo | src/ViceInterface.cpp:367-382 | While stopped, it sends a temporary stopping execution checkpoint on the address and then the resume, both awaiting replies. Hit marks are cleared twice. |
| Client.GetMemory | src/ViceInterface.cpp:520-538 | It succeeds exactly while connected and stopped. The request is then registered under its ID with its range and space, and sent awaiting a reply. |
| Client.OperationMaskBits | src/ViceInterface.cpp:325 | The operation mask has the load, store and exec bits exactly when the flags are set. |
| Client.AddCheckpoint | src/ViceInterface.cpp:316-335 | While connected, it sends the checkpoint set and then the checkpoint list, and clears the breakpoint store between them. Otherwise nothing changes. |
| Client.BreakpointIsExecCheckpoint | src/ViceInterface.cpp:337-356 | Adding a breakpoint is adding a stopping execution checkpoint on one address. |
| Registers.SetRegisters | src/ViceInterface.cpp:433-517 | The corrected definition (Findings row 2): It sends only when the connection object exists. The payload has one entry per selected register, in the fixed order, and each entry reads back as that register's value. The count and size fields match the entries. |
| Registers.UpdateRegisters | src/ViceInterface.cpp:804-823 | Each kept register ends with the value of the last entry naming it (16 bits for PC, LIN and CYC, the low byte otherwise). A register no entry names is unchanged. |
| Registers.SetThenRead | src/ViceInterface.cpp:433-517 | Reading a register-set payload back as a registers reply sets exactly the selected registers to the values sent. |
| Registers.AccumulatorValueAsWritten | src/ViceInterface.cpp:439-448 | As written, the value word sent for A differs from A whenever the uninitialised byte behind it is not zero. |
| Registers.PayloadValues | src/ViceInterface.cpp:439-448 | Every entry of the corrected payload carries its register's whole value in its two value bytes. As written, an 8-bit register's entry does so if and only if the stale byte behind it is zero. |
| Replies.CheckpointFlags | src/ViceInterface.cpp:786-796 | Each breakpoint flag is set exactly when its reply field is nonzero, or its operation bit is set. |
| Replies.HandleCheckpointGet | src/ViceInterface.cpp:784-802 | A hit checkpoint is first marked as hit, then handed to the store with its range and flags. Nothing is sent, and nothing but the store changes. |
| Replies.CheckpointRoundTrip | src/ViceInterface.cpp:316-335 | A checkpoint set by `ViceAddCheckpoint` and echoed back keeps its range and its requested flags. It comes back enabled, permanent and not current. |
| Replies.Halt | src/ViceInterface.cpp:846-863 | A stop registers the two memory reads under the next two IDs and clears the breakpoint store. It advances the counter by four. |
| Replies.HaltSends | src/ViceInterface.cpp:849-861 | A stop sends, in order: both halves of memory, the checkpoint list and the display, under the next four IDs. |
| Replies.StopResume | src/ViceInterface.cpp:832-867 | The PC follows the reply. Resumed makes the client running and sends nothing. Stopped or JAM makes it stopped and refreshes memory, breakpoints and display. |
| Replies.UpdateGetMemory | src/ViceInterface.cpp:741-772 | It removes the first registered request with the reply's ID. It writes the reply's bytes at the request's start, in the request's memory space when the client has a CPU for it, and changes nothing else. |
| Replies.HandleFrame | src/ViceInterface.cpp:648-702 | The reply answers its pending request, except under the sentinel ID. Only memory replies, stops and JAMs touch the registry or the counter. The result is undefined exactly for an unrequested memory reply. |
| Replies.OtherRepliesKeepRegistry | src/ViceInterface.cpp:660-702 | A reply other than a memory reply, a stop or a JAM leaves the memory registry alone. |
| Replies.HandleFrameKeepsOrder | src/ViceInterface.cpp:648-702 | Every reply keeps the pending list oldest first, while no pending request is within four IDs of being overtaken. |
| Replies.Pump | src/ViceInterface.cpp:588-713 | A pending close request tears the connection down. Otherwise the complete frames are handled in order, and the rest stays buffered and does not start a complete frame. |
| Replies.PumpChunks | src/ViceInterface.cpp:630-713 | The client and the buffer end up the same however the byte stream was split into received chunks. |

## Left out

- Sockets, the connection thread, the mutexes and the send queue (`SEND_IMMEDIATE` and `toSend`) are left out: each operation is one atomic step, and a sent message is appended to `sent`.
- Logging (`VICELOG`, `_DEBUG` output, `ViceLog`) is left out.
- The binary layouts of the `VICEBin*` structures are not part of this model. The header sizes (12 bytes for a reply, 11 for a command) follow the binary monitor chapter of the VICE manual. Reply bodies are given as a `View` next to the frame.
- Register wire codes and the `CPU6510::RM_*` bit values are not part of this model. Registers are named by role and the mask by field.
- `handleDisplayGet` is modelled only as the `RefreshScreen` call, because the image itself is not modelled.
- `handleCheckpointList` and `updateRegisterNames` are left out, because they only log or fill name tables.
- `ViceRemoveBreakpoint`, `ViceRemoveBreakpointNoList`, `ViceToggleBreakpoint`, `ViceSetCondition`, `ViceStartProgram`, `ViceReset`, `ViceSetMemory` and `ViceWaiting` are left out: they are not part of the modelled core.
- `GetCurrCPU`, `GetMainCPU` and `GetCPU` are modelled by `Regs`, which is always present, and by the memory map keyed by memory space. `MemoryFromVICE` is modelled as writing the reply's `count` bytes from the start address, and the bank is ignored.
- The receive buffer's capacity, the `recv` call and the assertion on the buffer fill are left out. Received bytes arrive as a chunk.
- `waitCount` and `sResumeMeansStopped` are left out, because nothing in the model reads them.
- Disasm.DisassembleTargetIsReference, Disasm.Disassemble, Asm.ParseStatement: `char` is taken as signed throughout (`Signed8`). `Disassemble` reads a branch offset through `(char)` (src/Mnemonics.cpp:942) and `InstrRefAddr` through `(int8_t)` (src/Mnemonics.cpp:818). These agree only where `char` is signed, so on a platform with unsigned `char` (AArch64 Linux, for example) the branch target `Disassemble` reports differs from `InstrRefAddr` for a backward branch. The assembler's scans also compare plain `char` values (src/Mnemonics.cpp:971, 981, 1020, 1031), so bytes from $80 on are below every printable character here.
- Replies.HandleFrame: the `assert(found)` in `updateGetMemory` is modelled as a `None` result for an unrequested memory reply, not as program termination. This is more general than the C code built without assertions (`NDEBUG`): there `updateGetMemory` goes on with its initial `start` 0 and `space` 0 and copies the reply's bytes to main memory from $0000.
- Framing.Extract: a declared body length near 2^32 that would overflow the C code's `uint32_t` frame size is not modelled. Frame sizes are unbounded here.
- Registers.SetRegisters: it sends 0 as the high value byte of every 8-bit register's entry. The code sends whatever byte the uninitialised stack held there (Findings row 2), which is modelled separately as `Registers.PayloadAsWritten`. So "each entry reads back as the register's value" holds only for the corrected payload.
- Disasm.GetWatchRef: for the pointer styles, a pointer stored at $FF takes its high byte from $00 here. The code reads it from $0100 (Findings row 3), which is modelled separately as `Disasm.GetWatchRefAsWritten`.
- Disasm.WatchRefIsReference: it is stated about the corrected `Disasm.GetWatchRef`. For the code as written, `*$p+y` with the pointer at $FF names a different address, as `Disasm.WatchPointerAsWrittenLeavesPageZero` shows.
- Asm.Strtol: the optional `0x` prefix that `strtol` accepts in base 16, and its clamping of out-of-range values, are not modelled, and neither is the conversion of its `long` result to `int arg`: a value outside the range of `int` keeps all its bits here, where the code keeps only its low 32 bits. The value read is stated, in `Asm.ReadNumber`, for a number written as an optional minus sign and digits; a leading `+` is read but not covered by that lemma.
- `InstrRef`, `GetRefType`, the text rendering of `Disassemble` (formats, `showLabels` and `GetSymbol`) and the text of watch expressions are left out. `argOffs` is stated as the column after the 10-column byte field (when bytes are shown), the mnemonic and one space; the text that follows it is not modelled.

## Findings

| source | as written | input that shows it | evidently intended | confidence | as-written member | corrected member |
|---|---|---|---|---|---|---|
| src/Mnemonics.cpp:1065-1069 | any operand below $100 selects the zero-page form, whether the mnemonic has one or not | `jsr $80` (also `jmp $12`, `lda $12,y`) returns 0 | fall back to the absolute form when the zero-page form does not exist | not executed | Asm.Jsr80AsWritten | Asm.Jsr80 |
| src/ViceInterface.cpp:439-448 | `msgRaw` is not initialised, and only `value[0]` is written for 8-bit registers | register mask `RM_A`, with a nonzero stack byte behind `value[0]` | the unused high value byte is sent as 0 | not executed | Registers.AccumulatorValueAsWritten | Registers.PayloadValues |
| src/Mnemonics.cpp:739-756 | the pointer's high byte is read from `z + 1` computed in `int`, so $FF reads $0100 | `lda ($ff),y` with $0100 different from $0000 | read the high byte from `(z + 1) & 0xff`, as `InstrRefAddr` and the CPU do | not executed | Disasm.WatchPointerAsWrittenLeavesPageZero | Disasm.WatchRefIsReference |
