# A verified model of a RISC-V to x86-64 JIT

The program under study loads a RV64IMC executable, translates its text section into a small
intermediate representation (IR), compiles that into x86-64 bytes in one buffer, and calls functions
of the guest by jumping into the buffer. A debugger can be attached; breakpoints are jumps written
over the live code. This project models the front end, the code generator, the dispatcher, the
breakpoint patcher and the line-table reader, and proves that they work together.

The central theorem is `Jit.InitAndCall`: translate a text, compile it, call a function; if the program
is harmless (`Faithful.AllHarmless`), which can be read off the text, the call ends as the guest machine ends that runs the text one instruction at a
time (`Isa.Interpret`), with the same registers, memory, program counter and outcome, and the host
registers are as before. The generated code is not trusted on the way: the machine that runs it
fetches bytes from the buffer, decodes them with a decoder of the x86-64 encoding written
independently of the encoder, and executes what it finds.

## How it is built

From the bottom up:

- `words.dfy`: 8-, 32- and 64-bit words as integers, with truncation, wrap-around, sign and
  little-endian bytes written out.
- `ir.dfy`, `reference.dfy`: the IR, what each operation does to the guest, and what a whole IR program
  does until it leaves the code (`Reference.RunIr`).
- `x86.dfy`, `x86_encoding.dfy`: the emitted instructions, their effect on registers, flags, the cpu
  record, guest memory and the native stack; their bytes; a decoder. Host memory consists of the cpu
  record, the guest stack, the data region and the text, at addresses that do not overlap; any other
  access, a divide error, or a branch on flags that were not set by CMP or TEST is a crash, and the
  theorems show that none of these happens.
- `snippet.dfy`, `lowering*.dfy`: the code of each IR operation with symbolic jumps, and the proof that
  it does what the operation means (`LoweringOps.LowerOk`, `LoweringOps.FuelOk`).
- `assembler.dfy`, `execution.dfy`, `program.dfy`, `sizes.dfy`, `op_sizes.dfy`, `lowering_shape.dfy`: bytes,
  offsets, displacement holes and patching; the layout of a whole program; the simulation of symbolic
  code by bytes; how many bytes each operation takes.
- `simulation.dfy`: one stay in the code, from the trampoline to the return, at byte level, with or
  without breakpoints.
- `code_buffer.dfy`, `emitter.dfy`, `codegen_ops.dfy`, `codegen_patch.dfy`, `codegen.dfy`: the compiler
  itself, as methods that append to an array, fill patch tables and overwrite holes. `Buffer.all` is a
  ghost record of every byte that was asked for; `Jit.plan` is a ghost symbolic program that the
  emitted bytes are kept equal to.
- `dispatcher.dfy`: the loop that enters the code again after every indirect jump.
- `decode.dfy`, `translate.dfy`, `text_map.dfy`: field extraction, decoding, the scan over the text and
  the map of data ranges in it.
- `rv64_encoding.dfy`, `rv64.dfy`, `compressed.dfy`: the RV64IM listing and the 16-bit expansions of the
  RISC-V Unprivileged ISA (20191213), as an assembler and a description of what each instruction does,
  against which decoding and IR are checked.
- `isa.dfy`, `faithful.dfy`, `room.dfy`, `jit.dfy`: the guest machine, whole runs, fuel; which programs are run
  faithfully; which texts fit the mapping the loader picks; and the end-to-end theorem.
- `leaf_calls.dfy`: what the theorem comes to for the smallest functions: any instruction that does not jump,
  with a return behind it, and the return alone.
- `gdb_memory.dfy`, `breakpoints.dfy`, `debug_code.dfy`: guest addresses as the debugger resolves them, the
  patcher, and the proof that patched code is the program with a trap at each armed address.
- `debug_spec.dfy`, `debug_loop.dfy`, `debug.dfy`, `debug_run.dfy`, `debug_rounds.dfy`, `debug_stops.dfy`, `debug_jit.dfy`: a call
  under the debugger by value; the loop over the patched code that computes it; what holds of every such
  call: the guest stays on its path (`DebugRun.RunPath`), pays for what runs between the steps
  (`DebugRun.RunCharged`), and stops at the breakpoints it comes to, but for exactly one kind
  (`DebugStops.FirstStopIff`); and a whole session, from the text to its end (`DebugJit.InitAndDebug`).
- `dwarf.dfy`: LEB128, the line-number program against the programs of the DWARF 4 standard, and the row
  that is kept.

## Conditions

The theorems about whole runs ask for these, and each is one the code rests on:

- Regions do not wrap, end at 8 or above, and the text address is above 0 (`Ir.SpaceOk`); host objects and
  the mapping of the code do not overlap (`X86.EnvOk`, `X86.CodeApart`); the text has an even size, no 32-bit encoding is cut off at its end, and
  scanning past its end does not wrap (`Translate.TextOk`, `Translate.EndsWhole`).
- Compiling asks that direct jumps into the text go to decoded instructions; comparing with the guest
  machine asks that the program is harmless, which is also necessary (`Faithful.FaithfulIff`), or closed
  (`Isa.Closed`), which is a little more (`Faithful.ClosedHarmless`).
- A call does not fault at an instruction whose stub has been cut off (`Jit.StubReached`). In a text that
  fits the mapping (`Room.Fits`) there is no such call, and `Room.FewLoadsFit` and `Room.SmallTextFits` name texts that do.
- The map from guest addresses to code starts out zero. The source takes it from `malloc` and never
  clears it (`src/riscv_jit.c:140-147`), so an address that was not translated may look translated; `Dispatcher.RefusedIff` says
  exactly when it is refused.
- The finished code is shorter than 2^31 bytes, and the mapping does not wrap.

## Where the code departs from what one would expect

Each is kept in the model, with its exact condition where there is one:

- A direct jump out of the text, conditional or not, is patched to the epilogue without storing the
  target: the dispatcher finds the address it last dispatched to and goes on there
  (`Isa.EscapingJumpResumes`), in the simplest case at the jump itself until the fuel is gone
  (`Isa.EscapingJumpLoops`).
- Code without an instruction behind it runs on into the next instruction of the text, over data, or at the
  end leaves with a stale address as well (`Faithful.FallingOff`). Running is faithful exactly if neither
  can happen (`Faithful.FaithfulIff`; `Isa.FaithfulFromIff` for one jump).
- The space checks do not count the fault stubs. They pass for every text (`Room.ChecksAlwaysPass`), also
  for a small one whose stubs are cut off (`Room.LoadsOverflow`); nothing is lost exactly if the text
  meets `Room.Fits`, and for any buffer under the condition of `CodeGen.NothingDroppedIff`. Stub number m is
  there exactly if 39 (m + 1) bytes fit behind the exit code (`Program.StubFits`).
- An indirect jump does not end the step over a breakpoint: the breakpoint stays lifted, and if only
  indirect jumps lead back to it, it is run over. That is the only way to lose one (`DebugStops.FirstStopIff`,
  `DebugStops.ReturnLosesBreakpoint`).
- A REX byte that carries nothing is left out, so SETcc and 8-bit stores that name SPL to DIL mean AH to
  BH. The generator never names these registers (`X86Encoding.SetccExact`).
- Loads into x0 are dropped together with their fault (`Rv64.DoesWhatTheManualSays` says exactly when this
  shows).
- C.JALR emits nothing (`Compressed.JumpAndLinkLost`); C.JR keeps bit 0 of the address
  (`Compressed.JumpRegisterIff`); some reserved 16-bit encodings, the all-zero one among them, are
  not trapped (`Compressed.ReservedTrapsIff`). JALR,
  FENCE, SLLI, ECALL and EBREAK accept words with fields the listing fixes (`Rv64.AcceptedIff`).
- A comment says that fuel spent while stepping is deducted (`src/riscv_jit.c:238`); the code restores
  the whole of it, so fuel does not bound a call under the debugger (`DebugRun.StepSpins`); the rounds that
  leave the fuel unchanged (`DebugSpec.RoundFuel`) and the steps that come to no stop
  (`DebugRun.StepSilentIff`) are told exactly.
- The debugger resolves addresses text first and ignores the eight guarded bytes at the bottom of the
  stack (`GdbMemory.SameViewIff` says exactly when neither shows).
- Stub slots are not given back when a breakpoint is removed, nor when its site turns out to be too far
  away: 64 of them use up a session (`Breakpoints.StubsRunOut`). Up to then every insertion succeeds
  (`Breakpoints.FirstCommandsObeyed`).

## Model

| member | source | states |
|---|---|---|
| `Jit.InitAndCall` | src/riscv_jit.c:113-158 | Loading never fails, and an entry that is no instruction is refused. Otherwise outcome, guest registers, guest memory and `cpu.pc` are those of the dispatcher over the IR program, for a harmless program those of the guest machine run instruction by instruction; the callee-saved host registers and the native stack are as before; fewer than 10,000,000 instructions run, and exactly 9,999,999 on a timeout. Texts whose stubs are cut off are included: only a call that faults at an instruction whose own stub does not fit is not described |
| `Jit.FitsReached` | src/riscv_jit.c:33-36 | In a text that fits (`Room.Fits`) no call is of that kind |
| `Jit.Init` | src/riscv_jit.c:121-157 | Loading succeeds for every text whose direct jumps into the text go to instructions; the buffer holds the whole program image if the text fits, and if not, the program up to the last stub that fits; the address map is written at translated addresses only |
| `Jit.ReturnReturns` | src/riscv_jit.c:301-308 | An example: a text that is one return instruction meets the conditions of the theorems, and calling it returns the first argument |
| `LeafCalls.CallLeaf` | src/riscv_jit.c:113-332 | For every instruction of the listing that does not jump, with a return behind it, loaded, compiled and called: the call returns what the instruction leaves in x10 by the manual, the guest is as it leaves it and the host is restored, or the call ends with its fault at its address; except where `Rv64.LostFault` holds |
| `LeafCalls.CallWithTwo` | src/riscv_jit.c:196-222 | A call of any of the 28 register instructions on x10 and x11 returns what it computes of the first two arguments; stack, data, the stack pointer and the other argument registers are as the call set them |
| `LeafCalls.CallReturn` | src/riscv_jit.c:196-222 | A call of a single return gives back the first argument, zero if there is none; all eight argument registers and the stack pointer hold what the call put there |
| `LeafCalls.HasHost` | src/riscv_jit.c:113-148 | The conditions on the host can be met: every guest that leaves room in the address space has one |
| `LeafCalls.LeafRuns` | src/riscv_jit.c:228-329 | The guest machine on such a text, from any state and with any fuel above two |
| `Jit.TranslateText` | src/riscv_jit.c:149-152 | A builder with one slot per text byte receives the whole stream and drops nothing |
| `Isa.WholeRun` | src/riscv_jit.c:228-329 | For a closed program, any start instruction, state and fuel, over any number of indirect jumps: the dispatcher over the IR program ends as the one-instruction-at-a-time machine does |
| `Isa.Agree` | src/riscv_jit.c:301-318 | One stay in the code from any instruction, resumed by the dispatcher, equals the guest machine from there |
| `Isa.FuelBound` | src/riscv_jit_cg_x86.c:732-742 | From fuel F at most F - 1 instructions complete over the whole call, and exactly F - 1 if it times out |
| `Isa.FaithfulFromIff` | src/riscv_jit_cg_x86.c:1450-1460 | Any instruction with a direct jump: C.J, C.BEQZ, C.BNEZ, JAL and the six branches. With all else closed, running from it is faithful for all states and fuels if and only if the target lies in the text or no state takes the jump |
| `Faithful.FaithfulIff` | src/riscv_jit_cg_x86.c:1450-1460 | A program is run faithfully from every instruction, for all states and fuels, if and only if every direct jump stays in the text or is never taken, and an instruction follows every one that some state continues from |
| `Faithful.CanContinueIff` | src/riscv_jit_cg_x86.c:1165-1448 | From which instructions some state continues can be read off the operands and the sizes of the regions |
| `Faithful.FallingOff` | src/riscv_jit_cg_x86.c:1519-1554 | Where no instruction follows, the code goes on at the next instruction of the text, or behind the last one leaves with the address last dispatched to |
| `Faithful.FallingOffDiffers` | src/riscv_jit_cg_x86.c:1519-1554 | The guest machine ends there, so the two differ |
| `Isa.CanTakeIff` | src/riscv_jit_cg_x86.c:984-1007 | Which direct jumps some state takes can be read off the operands: all but a register compared with itself for being different or less, and an unsigned comparison for being less than x0 |
| `Isa.EscapingJumpResumes` | src/riscv_jit_cg_x86.c:1452-1460 | A direct jump out of the text that is taken, wherever it stands, resumes the run at the address last dispatched to |
| `Isa.EscapingJumpLoops` | src/riscv_jit_cg_x86.c:1452-1460 | Dispatched to such an instruction, the run takes it again and again until the fuel is gone, with the link of a JAL written |
| `Isa.EscapingJumpDiffers` | src/riscv_jit_cg_x86.c:1452-1460 | The guest machine leaves through it at once, so the two differ from every state that takes it |
| `Dispatcher.Machine.Call` | src/riscv_jit.c:196-332 | A call without a debugger: BadPc and nothing changed for an entry that is not translated; otherwise outcome, guest and pc of `Dispatch`, with the host registers restored, unless that faults where the stub has been cut off |
| `Dispatcher.StartsWith` | src/riscv_jit.c:207-218 | Register by register: x2 is the stack size, x10 and up are the first eight arguments in order, and every other register is zero, the return address too |
| `Dispatcher.Machine.Loop` | src/riscv_jit.c:228-329 | The re-entry loop computes `Dispatch` from the current state; fuel is its termination measure |
| `Dispatcher.Machine.Enter` | src/riscv_jit.c:235 | One trampoline call into the machine code brings back exactly the outcome the IR program has from that operation |
| `Dispatcher.Machine.CodeOffsetForPc` | src/riscv_jit.c:38-43 | Nonzero exactly at translated addresses, and then the offset of the code that runs the instruction there |
| `Dispatcher.DispatchStep` | src/riscv_jit.c:289-318 | What each kind of stay means for the call: fault, return through pc 0, bad pc, or another stay with strictly less fuel |
| `Dispatcher.CallCharged` | src/riscv_jit_cg_x86.c:732-742 | Whatever the program, from fuel F a call runs at most F - 1 instructions, and exactly F - 1 if it times out |
| `Dispatcher.FuelSpent` | src/riscv_jit.c:228-329 | Whatever is armed, fuel never grows in a stay, and shrinks in every stay entered at an instruction that is not armed |
| `Dispatcher.MapLooksUp` | src/riscv_jit.c:38-43 | In a map that started out zero, an address has a nonzero entry exactly if it was translated, and then it is the offset of its code |
| `Dispatcher.RefusedIff` | src/riscv_jit.c:140-147 | With the map as `malloc` gives it, an address in the text is refused if and only if it was not translated and its slot happened to be zero |
| `Ir.SetReg` | src/riscv_jit.c:69-73 | A register write from the ecall handler sets that register and no other, and never x0 |
| `Ir.EcallLeaves` | src/riscv_jit.c:49-73 | After an ecall every register but x0 and every byte of stack and data holds the last value the handler wrote there, or what it held before if the handler wrote none |
| `Ir.StackGuarded` | src/riscv_jit_cg_x86.c:620-652 | A place in the stack is found exactly for accesses from address 8 up that stay below its end, and then before any other region |
| `Words.BitsAt` | src/riscv_jit_cg_x86.c:1270-1294 | Bit by bit: AND sets a bit exactly if both operands have it, OR if either has it, XOR if exactly one has it |
| `Words.WordsAdd` | src/riscv_jit_cg_x86.c:1270-1294 | On 64-bit words: OR is the sum less AND, and XOR is OR less AND |
| `Words.Truncates` | src/riscv_ir.h:14-153 | Truncation keeps a number modulo the size of the type |
| `Words.SignedReadings` | src/riscv_ir.h:14-153 | The signed reading of a word is the number of the signed type that is congruent to it |
| `Words.SignExtends` | src/riscv_jit_cg_x86.c:935-981 | Sign extension keeps the signed reading of the low 32 bits |
| `X86.CallClobbers` | src/riscv_jit_cg_x86.c:1021-1027 | A native call gives back exactly the registers its convention preserves; the other nine may hold anything |
| `Simulation.CallSimulates` | src/riscv_jit_cg_x86.c:1506-1562 | One call of the trampoline at byte level: the machine returns with the outcome of the IR program, the right cpu record, guest memory and restored host registers; a trap kills the process. The code may be cut off, as long as the stay does not fault at an instruction whose stub is missing |
| `Simulation.Simulates` | src/riscv_jit_cg_x86.c:1519-1538 | From the first byte of any operation, decoding and executing the bytes in memory reaches the outcome the IR program has from there |
| `Simulation.BreakSteps` | src/riscv_gdb.c:404-465 | At an armed address the machine stops with the debug fault and this pc, before the instruction has done anything |
| `Simulation.ImageLoaded` | src/riscv_jit_cg_x86.c:1484-1562 | The finished image decodes, from end to end, to the program with every jump at its place |
| `Simulation.CodeLoaded` | src/riscv_jit_cg_x86.c:1484-1562 | So does code that was cut off, up to the last stub that fits |
| `Simulation.FullTargets` | src/riscv_jit_cg_x86.c:1471-1482 | With room for the whole code every jump leads to its place, and every stub is there |
| `Execution.RunSteps` | src/riscv_jit_cg_x86.c:1165-1448 | The byte machine started at an installed piece of code reaches the ending its symbolic run predicts |
| `LoweringOps.LowerOk` | src/riscv_jit_cg_x86.c:1165-1448 | For every IR operation but the fuel check and every host state: the emitted code has exactly the effect of the IR operation on registers and memory and goes on, jumps, leaves with the new pc, faults through its own stub, or traps accordingly |
| `LoweringOps.FuelOk` | src/riscv_jit_cg_x86.c:732-742 | The fuel check takes one unit and leaves through its timeout stub exactly when what remains is zero or negative |
| `LoweringMemory.ChecksOk` | src/riscv_jit_cg_x86.c:620-730 | For every address, width and direction the bounds checks fall through, with the matching host address in RCX, exactly if the region model finds a place; otherwise they leave through the fault jump |
| `LoweringMemory.Rebase` | src/riscv_jit_cg_x86.c:654-672 | Adding the wrapped difference of host and guest base lands on the host address |
| `LoweringOps.Reach` | src/riscv_jit_cg_x86.c:620-730 | Offset and checks together: past the checks with the host address, or out through the fault jump, for every register value and immediate |
| `LoweringMulDiv.DivCoreOk` | src/riscv_jit_cg_x86.c:1087-1163 | All eight divide sequences compute the RISC-V result for all operands; in particular no divide error is ever raised |
| `LoweringMulDiv.TruncDivSpec` | src/riscv_ir.h:14-153 | The quotient rounds toward zero: the remainder is smaller than the divisor and has the sign of the dividend |
| `LoweringMulDiv.QuotientFits` | src/riscv_jit_cg_x86.c:1087-1163 | Away from the one overflow the quotient is representable |
| `LoweringMulDiv.MulCoreOk` | src/riscv_jit_cg_x86.c:1048-1085 | MUL, MULH, MULHSU, MULHU and MULW leave their RISC-V result |
| `LoweringMulDiv.Mulhsu` | src/riscv_jit_cg_x86.c:1048-1085 | Unsigned high half minus a sign-masked rs2 is the signed-by-unsigned high half |
| `LoweringMulDiv.SignMask` | src/riscv_jit_cg_x86.c:1048-1085 | Shifting the sign down and masking keeps all of rs2 or nothing |
| `LoweringAlu.CmpDecides` | src/riscv_jit_cg_x86.c:984-1007 | The flags of a comparison decide each emitted condition, signed and unsigned |
| `LoweringAlu.AluWCoreOk` | src/riscv_jit_cg_x86.c:935-981 | The 32-bit forms, with the sign extension behind them, compute the W results |
| `LoweringOps.JalrOk` | src/riscv_jit_cg_x86.c:1165-1448 | JALR takes its target from the old rs1 even if rd is rs1, clears bit 0, writes the link, and leaves through the epilogue |
| `LoweringOps.EcallOk` | src/riscv_jit_cg_x86.c:1021-1027 | Around the native call the reserved registers, RAX and the native stack are kept; the guest changes as the handler says, which `Ir.EcallLeaves` spells out |
| `LoweringOps.ZeroX0Ok` | src/riscv_jit_cg_x86.c:819-822 | Clearing x0 in front of an operation changes nothing while x0 is zero |
| `X86Encoding.DecodeEncode` | src/riscv_jit_cg_x86.c:178-595 | Whatever follows in the buffer, a decoder for REX, ModRM and SIB reads every emitted instruction back as itself, with its length |
| `X86Encoding.SetccDecodes` | src/riscv_jit_cg_x86.c:469-477 | What the SETcc bytes mean for every register: AH to BH where SPL to DIL is named, since the empty REX byte is left out |
| `X86Encoding.SetccExact` | src/riscv_jit_cg_x86.c:469-477 | SETcc round-trips if and only if the register is not RSP, RBP, RSI or RDI |
| `CodeBuffer.Buffer.Emit8` | src/riscv_jit_cg_x86.c:160-164 | A byte is appended if there is room and dropped without notice if not |
| `CodeBuffer.Buffer.Emit32` | src/riscv_jit_cg_x86.c:166-171 | Four little-endian bytes |
| `CodeBuffer.Buffer.Emit64` | src/riscv_jit_cg_x86.c:173-176 | Eight little-endian bytes from two 32-bit halves |
| `CodeBuffer.Buffer.EmitRex` | src/riscv_jit_cg_x86.c:178-195 | The REX byte with its four bits, left out when it carries nothing |
| `CodeBuffer.Buffer.EmitMemOperand` | src/riscv_jit_cg_x86.c:211-232 | ModRM, SIB for RSP and R12, and an 8- or 32-bit displacement |
| `CodeBuffer.Buffer.EmitAluImm32` | src/riscv_jit_cg_x86.c:276-291 | Short immediates, the short form for adding to RAX, and the general form |
| `CodeBuffer.Buffer.EmitSetcc` | src/riscv_jit_cg_x86.c:469-477 | SETcc as the generator writes it |
| `CodeBuffer.Buffer.EmitLoad` | src/riscv_jit_cg_x86.c:559-582 | The load of each width and signedness |
| `CodeBuffer.Buffer.EmitStore` | src/riscv_jit_cg_x86.c:584-595 | The store of each width, with the operand-size prefix for 16 bits |
| `CodeBuffer.Buffer.Emit` | src/riscv_jit_cg_x86.c:234-557 | Every instruction is appended as its encoding |
| `CodeBuffer.Buffer.Patch32` | src/riscv_jit_cg_x86.c:615-618 | Four bytes of a displacement change, and no other byte |
| `Assembler.AsmPatch` | src/riscv_jit_cg_x86.c:916-926 | Patching one hole is assembling with that target known; every other byte is unchanged |
| `Assembler.HolesDisjoint` | src/riscv_jit_cg_x86.c:902-926 | The displacement fields of different jumps are in bounds and do not overlap |
| `Assembler.DecodeAt` | src/riscv_jit_cg_x86.c:1450-1482 | At the offset of an item the decoder finds the item with its displacement |
| `Execution.JumpStep` | src/riscv_jit_cg_x86.c:916-926 | A taken jump arrives at the offset of its recorded target |
| `LoweringShape.LowerFits` | src/riscv_jit_cg_x86.c:1165-1448 | Every instruction of an operation can be read back, local jumps stay inside it, and its fault jump names its own stub |
| `Program.StubSlice` | src/riscv_jit_cg_x86.c:1471-1482 | The stub an operation records stands at its number among the stubs of its kind |
| `OpSizes.LowerExact` | src/riscv_jit_cg_x86.c:1165-1448 | The exact number of bytes of every operation, for every operand |
| `OpSizes.LowerBytes` | src/riscv_jit_cg_x86.c:744-746 | One operation, with the clearing of x0, never takes more than the 224 bytes checked for |
| `Sizes.StubBytes` | src/riscv_jit_cg_x86.c:1471-1476 | A fault stub takes exactly 39 bytes |
| `Sizes.StubOff` | src/riscv_jit_cg_x86.c:1478-1482 | Stub number m, over all kinds, stands 39 times m bytes behind the exit code |
| `CodeGen.TrampolineBytes` | src/riscv_jit_cg_x86.c:1506-1517 | The trampoline stays within its 160-byte budget |
| `CodeGen.TablesBound` | src/riscv_jit_cg_x86.c:854-878 | Every patch table stays within the number of IR operations |
| `CodeGen.Compile` | src/riscv_jit_cg_x86.c:1484-1562 | Succeeds exactly when every space check passes; the buffer then holds the program image if that fits, and if not, the program up to the last stub that fits, with the jumps to the others leading to the end of the buffer or to what there is of them; the map has the code of each translated address |
| `CodeGen.EmitOperations` | src/riscv_jit_cg_x86.c:1519-1538 | All operations are emitted and mapped exactly if there is more than 224 bytes of room before each |
| `CodeGen.EmitTrampoline` | src/riscv_jit_cg_x86.c:1506-1517 | Appends exactly the planned bytes of the entry code: pushes, base registers, constants, and the jump through RSI |
| `CodeGen.NothingDroppedIff` | src/riscv_jit_cg_x86.c:1540-1558 | No byte is dropped if and only if the room behind the last operation holds the exit code and 39 bytes per recorded stub |
| `CodeGen.ChecksMissStubs` | src/riscv_jit_cg_x86.c:1540-1558 | For every program with at least seven stubs some buffer size passes every check and cuts code off; the sizes the loader picks are the subject of the next rows |
| `Room.ChecksAlwaysPass` | src/riscv_jit.c:33-36 | At the size the loader picks, every space check passes for every text |
| `Room.LastCheckDecides` | src/riscv_jit_cg_x86.c:1506-1562 | For any operations and any buffer: compiling succeeds exactly if more than 256 bytes are left behind the operations; the checks before that never decide |
| `Room.FitsIff` | src/riscv_jit.c:33-36 | Whether the code with its stubs fits that size can be computed from the text before compiling |
| `Room.FewLoadsFit` | src/riscv_jit.c:33-36 | It fits for every text without a data region, and with few enough 16-bit loads; without such loads always |
| `Room.SmallTextFits` | src/riscv_jit.c:33-36 | Every text of at most 448 bytes fits |
| `Room.LoadsOverflow` | src/riscv_jit_cg_x86.c:1540-1558 | It does not fit for 230 or more 16-bit loads and a return: loading succeeds, every check passes, and stubs are cut off |
| `CodeGenOps.EmitOperation` | src/riscv_jit_cg_x86.c:1531-1537 | x0 is cleared, a discarded operation emits nothing else, any other its body; bytes and patch tables are those of the plan |
| `CodeGenOps.EmitInstruction` | src/riscv_jit_cg_x86.c:1165-1448 | The body of one operation, and exactly the table entries it records |
| `CodeGenOps.EmitChecks` | src/riscv_jit_cg_x86.c:620-730 | Appends exactly the planned bytes of the bounds checks, leaves no local jump unpatched, and records one fault jump with the pc of the access |
| `CodeGenOps.EmitDivRem` | src/riscv_jit_cg_x86.c:1087-1163 | Appends exactly the planned bytes of the divide sequence and leaves no early exit unpatched |
| `CodeGenOps.EmitMul` | src/riscv_jit_cg_x86.c:1048-1085 | Appends exactly the planned bytes of the multiply sequence of each operation |
| `CodeGenOps.EmitFuelCheck` | src/riscv_jit_cg_x86.c:732-742 | Appends exactly the planned bytes of the fuel check, and records its jump for the timeout stub of this pc |
| `CodeGenOps.EmitEcall` | src/riscv_jit_cg_x86.c:1021-1027 | Appends exactly the planned bytes of the native call, between saving and restoring RAX |
| `CodeGenOps.ZeroGuestZeroRegister` | src/riscv_jit_cg_x86.c:819-822 | Appends exactly the planned bytes of clearing x0 |
| `Emitter.Jit.EmitBranchTo` | src/riscv_jit_cg_x86.c:902-905 | A jump with an empty displacement, entered in the branch table with its guest target |
| `Emitter.Jit.EmitExitJump` | src/riscv_jit_cg_x86.c:907-914 | A jump to the epilogue, entered by the offset of its opcode |
| `Emitter.Jit.EmitReadFaultJump` | src/riscv_jit_cg_x86.c:702-714 | The jump of a failed load, entered with its pc |
| `Emitter.Jit.EmitWriteFaultJump` | src/riscv_jit_cg_x86.c:702-714 | The jump of a failed store, entered with its pc |
| `Emitter.Jit.EmitTimeoutJump` | src/riscv_jit_cg_x86.c:738-741 | The conditional jump of a fuel check, entered with its pc |
| `Emitter.Jit.PatchHere` | src/riscv_jit_cg_x86.c:1039-1041 | An open forward jump is made to land on the next instruction |
| `CodeGenPatch.PatchGuestBranches` | src/riscv_jit_cg_x86.c:1450-1462 | Every recorded branch gets the code of its target, or the epilogue if that is outside the text; nothing else changes |
| `CodeGenPatch.PatchEpilogueJumps` | src/riscv_jit_cg_x86.c:1464-1469 | Every recorded epilogue jump gets the epilogue |
| `CodeGenPatch.EmitFaultStub` | src/riscv_jit_cg_x86.c:1471-1476 | For any room left: the fault jump is patched to the current end and the stub appended, as far as it fits |
| `CodeGenPatch.EmitNextStub` | src/riscv_jit_cg_x86.c:1471-1482 | A stub that fits is the next part of the program and its jump leads to it; of one that does not fit only the jump is left |
| `CodeGenPatch.EmitFaultStubs` | src/riscv_jit_cg_x86.c:1478-1482 | The stubs of one kind, as far as they fit; every fault jump of the kind is finished |
| `CodeGenPatch.EmitEpilogue` | src/riscv_jit_cg_x86.c:1551-1554 | Appends exactly the planned bytes of the exit code, after every branch has been patched |
| `Translate.Builder.Push` | src/riscv_ir.c:642-646 | An operation is stored if there is room and dropped without notice if not |
| `Translate.IrTranslate` | src/riscv_ir.c:604-634 | The scan pushes, for each instruction outside data, a fuel check and its operations, in address order |
| `Translate.StreamShape` | src/riscv_ir.c:604-634 | Addresses never go back, every group starts with its only fuel check, and every operand is one the generator accepts |
| `Translate.StreamCount` | src/riscv_ir.c:604-634 | Never more operations than text bytes, but for one if a jump-and-link is cut off by the end of the text |
| `Translate.TranslatedIff` | src/riscv_ir.c:604-634 | An address is translated exactly if the scan decodes an instruction there |
| `Translate.FirstTranslated` | src/riscv_ir.c:604-634 | From the map alone: the first translated instruction stands at the first even offset that is not marked as data, and nothing before it is translated |
| `Translate.NextTranslated` | src/riscv_ir.c:604-634 | From the map and the two lowest bits of each instruction: behind an instruction at i the next one stands at the first even offset, from i + 2 or i + 4 on, that is not marked as data, and nothing between is translated |
| `Translate.LastTranslated` | src/riscv_ir.c:604-634 | If everything behind an instruction is marked as data, nothing after it is translated |
| `Translate.StreamSplit` | src/riscv_ir.c:604-634 | Before the operations of an instruction stand only operations of smaller addresses |
| `TextMap.CollectMappings` | src/riscv_ir.c:544-585 | The mapping symbols inside the text, in table order |
| `TextMap.MappingsMark` | src/riscv_ir.c:557-569 | Every symbol inside the text whose name starts with $x or $d is collected with its address, as data exactly if it starts with $d; nothing else is |
| `TextMap.Paint` | src/riscv_ir.c:586-602 | A byte is marked as data exactly if the last mapping symbol at or before it says data |
| `TextMap.Sort` | src/riscv_ir.c:532-578 | The mapping symbols in order of address, in any order among those that share one |
| `TextMap.BuildTextDataMap` | src/riscv_ir.c:544-602 | In terms of the symbol table: no map exactly if the text is empty or no symbol inside it starts with $x or $d; otherwise a byte is data only if a nearest such symbol at or before it starts with $d, and code only if one starts with $x or there is none |
| `TextMap.NearestDecides` | src/riscv_ir.c:532-602 | What a byte is does not depend on how the symbols were sorted, if no two share an address |
| `Rv64.DoesWhatTheManualSays` | src/riscv_ir.c:49-525 | Every RV64IM instruction, assembled by the formats of the manual, is translated to operations that do what the manual says from every state, if and only if it is not a load into x0 that should fault |
| `Rv64.Decodes` | src/riscv_ir.c:49-285 | Every listed encoding becomes the operations of that instruction |
| `Rv64.AcceptedIff` | src/riscv_ir.c:49-285 | A 32-bit word is rejected exactly if it is not in the listing and not one of four lenient forms |
| `Rv64Encoding.FieldsB` | src/riscv_instr.h:223-225 | The scattered branch offset is read back |
| `Rv64Encoding.FieldsJ` | src/riscv_instr.h:228-230 | The scattered jump offset is read back |
| `Rv64Encoding.FieldsS` | src/riscv_instr.h:220-222 | The split store offset is read back |
| `Compressed.FieldsMatch` | src/riscv_instr.h:233-248 | The fields of the 16-bit formats are where the manual has them, bit for bit: functions, registers and short registers |
| `Compressed.ImmediatesMatch` | src/riscv_instr.h:251-284 | The field macros assemble the immediates of all 16-bit formats bit for bit as the manual lays them out |
| `Compressed.ExpansionAgrees` | src/riscv_ir.c:493-514 | Every supported 16-bit instruction does what its 32-bit expansion does and what the manual says the expansion does, for every state and outcome; C.JR only with an even register, C.JALR not at all |
| `Compressed.JumpRegisterIff` | src/riscv_ir.c:429-439 | C.JR agrees with its expansion if and only if the register is even |
| `Compressed.JumpAndLinkLost` | src/riscv_ir.c:429-439 | C.JALR is translated to nothing: control goes on where the expansion jumps |
| `Compressed.ReservedTrapsIff` | src/riscv_ir.c:287-447 | An encoding without an expansion kills the process, unless it is one of the listed reserved forms of supported instructions |
| `Compressed.ExecutesByTheManual` | src/riscv_ir.c:20-525 | One step of the guest machine used by the whole-run theorems is the step the manual describes for the instruction in the text |
| `GdbMemory.TranslateGuest` | src/riscv_gdb.c:346-388 | The range a debugger access resolves to, or failure, and whether it may be written; an access of no bytes always succeeds |
| `GdbMemory.SameViewIff` | src/riscv_gdb.c:346-388 | For all regions, overlapping or not: the debugger may read and write exactly what guest loads and stores may, at the same byte, if and only if neither the order of the regions nor the guard at the bottom of the stack shows |
| `GdbMemory.DisjointViews` | src/riscv_gdb.c:346-388 | With disjoint regions, if and only if the access starts at 8 or above or does not fit the stack |
| `GdbMemory.OverlapDiffers` | src/riscv_gdb.c:353-373 | An example where text and stack overlap: the debugger sees read-only text, the guest its stack |
| `Breakpoints.StubIsCode` | src/riscv_gdb.c:424-465 | The 39 stub bytes written by hand are the encodings of five instructions |
| `Breakpoints.Patcher.EnsureStubBuf` | src/riscv_gdb.c:409-422 | The stub area is taken at the end of the mapping, if it does not reach into the code |
| `Breakpoints.Patcher.WriteStub` | src/riscv_gdb.c:424-465 | A new stub leaves the code and all other stubs alone |
| `Breakpoints.Patcher.Install` | src/riscv_gdb.c:468-527 | Setting a breakpoint: the addresses that have one and the stub bytes handed out are those of the specification, for every outcome; it fails exactly if the address is not set already and an entry, a translated address, a slot or a distance is missing, and then code and entries are unchanged |
| `Breakpoints.Patcher.Find` | src/riscv_gdb.c:529-537 | The used entry for an address, or -1 exactly if there is none |
| `Breakpoints.Patcher.Unpatch` | src/riscv_gdb.c:540-547 | Putting the saved bytes back leaves the compiled code under exactly the other armed jumps |
| `Breakpoints.Patcher.Repatch` | src/riscv_gdb.c:550-566 | Writing the jump again arms this breakpoint and no other |
| `Breakpoints.Patcher.Remove` | src/riscv_gdb.c:568-580 | The breakpoint is gone, all others stay, and the table is trimmed as specified |
| `Breakpoints.ObeyedPcs` | src/riscv_gdb.c:468-580 | A command changes the breakpoint of its own address only: an insertion sets it exactly if it was set or could be set, a removal always takes it away |
| `Breakpoints.InsertIff` | src/riscv_gdb.c:468-527 | With room for the stubs: after n stubs an insertion leaves a breakpoint exactly if there was one, or the address has code and n is below 64; only then is another stub handed out |
| `Breakpoints.FirstCommandsObeyed` | src/riscv_gdb.c:468-580 | The first 64 commands of a session leave exactly the breakpoints asked for: inserted where there is code, and not removed since |
| `Breakpoints.StubsRunOut` | src/riscv_gdb.c:468-527 | After 64 stubs no further breakpoint can be set, even if all are removed |
| `Breakpoints.TrimEnds` | src/riscv_gdb.c:568-580 | What a removal trims off the table are its free entries at the end, all of them |
| `Breakpoints.WatchedLifts` | src/riscv_gdb.c:582-603 | In a session a stop arms everything, a step over a breakpoint lifts that one if none is lifted, the end of the step arms it again, and only stops change the table |
| `Breakpoints.Patcher.TempUnpatch` | src/riscv_gdb.c:582-592 | Exactly the breakpoint stopped at is lifted |
| `Breakpoints.Patcher.RepatchPc` | src/riscv_gdb.c:594-603 | It is armed again, and nothing is left unarmed |
| `Breakpoints.Patcher.OnStop` | src/riscv_gdb.c:1008-1042 | Nothing is left unarmed, and the breakpoints are exactly those the commands make of the old ones, in order |
| `Breakpoints.Patcher.Close` | src/riscv_gdb.c:1117-1148 | Closing at any time brings the compiled code back, byte for byte |
| `Breakpoints.Patcher.Session` | src/riscv_gdb.c:468-603 | After every prefix of any sequence of stops, steps over a breakpoint and re-arming, the table and the lifted breakpoint are those the events ask for, and memory is the compiled code under exactly the other jumps; closing brings the compiled code back |
| `Breakpoints.Arm` | src/riscv_gdb.c:521-524 | Writing one jump keeps the overlay: compiled code everywhere but at the armed sites |
| `Breakpoints.Disarm` | src/riscv_gdb.c:545-546 | The same for taking one away |
| `DebugCode.OverlayLoaded` | src/riscv_gdb.c:468-566 | Whatever breakpoints are set, the bytes in memory are the compiled program with a working trap at each armed address, so the run theorems hold of them |
| `DebugCode.CompiledMapApart` | src/riscv_jit_cg_x86.c:1527-1529 | Translated addresses have their code at least a jump apart, behind the trampoline and inside the code |
| `Debug.StopsOnPath` | src/riscv_jit.c:228-262 | A run stopped by a breakpoint is a prefix of the plain run, and a run that meets none is the plain run |
| `Debug.BorrowedStep` | src/riscv_jit.c:229-239 | With two units of fuel exactly one instruction runs and the stop is at its successor; an indirect jump leaves without stopping, and a fault is the instruction's own |
| `Debug.StayWalks` | src/riscv_jit.c:228-235 | One stay with any armed breakpoints and any fuel moves the guest along its own path, charged one unit for each instruction, and ends before an armed instruction, before one without fuel, at one that faults or traps, or where an indirect jump led |
| `Debug.StayReaches` | src/riscv_jit.c:228-235 | A stay of a guest whose path comes to an armed address stops there, or leaves by an indirect jump from where it is still heading there |
| `DebugRun.RunPath` | src/riscv_jit.c:228-329 | Any number of rounds under the debugger, with any breakpoints set, removed, hit and stepped over and any steps and break-ins: the guest is at a state of its own undisturbed path, as many instructions on as the stays have completed, and the call ends only where and as the guest ends there, a timeout apart |
| `DebugRun.CallPath` | src/riscv_jit.c:222-329 | The same for whole calls, with the stop before the first instruction |
| `DebugRun.RunCharged` | src/riscv_jit.c:229-239 | The fuel of the call pays for exactly the instructions completed in stays that are not steps: a call that goes on has the rest left, and one that times out has completed one less than its fuel |
| `DebugSpec.RoundFuel` | src/riscv_jit.c:229-239 | A round leaves the fuel of the call unchanged if and only if it runs on borrowed fuel or starts at an armed address, and otherwise spends some |
| `DebugSpec.LastRound` | src/riscv_jit.c:228-329 | A call that does not go on was ended by one of its rounds: by an outcome, or by the detaching of the debugger in that round; it times out only in a round on its own fuel |
| `DebugSpec.GoesOnUnarmed` | src/riscv_jit.c:242-262 | A call that goes on from a breakpoint has it lifted, so the next stay does not stop at once |
| `DebugRun.RoundMoves` | src/riscv_jit.c:228-287 | A round that does not end the call completes no instruction exactly if it starts at an armed address; on borrowed fuel it completes exactly one from any other |
| `DebugStops.FirstStopIff` | src/riscv_jit.c:228-329 | With fuel and rounds enough, a call that is not single-stepping first stops at position n of the path of the guest if and only if n is the first hit: an instruction with a breakpoint, and not the lifted one come back to over indirect jumps only |
| `DebugStops.BreakpointReached` | src/riscv_jit.c:242-262 | From any moment of such a call, the step over a breakpoint included: it stops at the first hit, in the state of the guest there, with all instructions charged but those of the step |
| `DebugStops.NextBreakpointIff` | src/riscv_jit.c:228-329 | Going on from a breakpoint: the call stops at the next position with a breakpoint if and only if that is another address, or the instructions up to it are not all indirect jumps |
| `DebugStops.NextBreakpointReached` | src/riscv_jit.c:228-329 | To be read off the text: after a breakpoint at an instruction that is no indirect jump, the next breakpoint on the path is always hit |
| `DebugStops.ReturnLosesBreakpoint` | src/riscv_jit.c:301-329 | A breakpoint that is lost: on a return that returns to itself it is hit once, and after that run over for ever |
| `DebugRounds.UserStepStops` | src/riscv_jit.c:264-280 | A step that was asked for, at an instruction that continues or jumps directly and has no armed breakpoint: the guest stops at its successor, the fuel is unchanged, the commands of the stop have run, the call goes on in steps or freely as the debugger said, or is let go; a breakpoint at the successor is hit in the same stop and lifted |
| `DebugRounds.StepsOver` | src/riscv_jit.c:264-287 | Stepping over a breakpoint at such an instruction: the breakpoint is armed again, the fuel is unchanged, and the debugger is not asked, unless the successor has a breakpoint too |
| `DebugRounds.RoundHears` | src/riscv_jit.c:228-329 | Any round, by how its stay ended: at a breakpoint the debugger is heard and that breakpoint is lifted; a fault ends the call after the commands of the stop; behind an indirect jump the call returns x10, ends with BadPc, goes on unchanged, or the debugger breaks in and is heard |
| `DebugRounds.CallHears` | src/riscv_jit.c:222-227 | Before the first instruction of a call the debugger is heard, with everything armed; the rounds start from what it left |
| `DebugRun.StepSilentIff` | src/riscv_jit.c:264-287 | A step left alone for k rounds comes to no stop and no end if and only if the next k instructions are unarmed indirect jumps to instructions; then no fuel is spent and breakpoints and the step stay as they are |
| `DebugRun.StepSpins` | src/riscv_jit.c:229-239 | Under the debugger fuel does not bound a call: a step at an indirect jump to itself is the same after any number of rounds |
| `DebugRun.ReturnSpins` | src/riscv_jit.c:229-239 | A concrete such call: a text of one return instruction that returns to itself, single-stepped |
| `DebugRun.OnlyWatching` | src/riscv_jit.c:228-329 | Without breakpoints and steps the debugger makes no difference: the call ends as the guest machine does, within as many rounds as there is fuel |
| `DebugLoop.DebugMachine.Loop` | src/riscv_jit.c:228-329 | The loop over the patched code, for any input: guest, pc, fuel, breakpoints, the lifted one, step mode and status are those of the rounds of the specification, with the host registers restored |
| `DebugLoop.DebugMachine.Call` | src/riscv_jit.c:196-332 | A call with a debugger attached: refused without a trace, or the stop before the first instruction and then the rounds |
| `DebugJit.Attach` | src/riscv_gdb.c:1066-1113 | A debugger attached to compiled code finds the sites apart and nothing armed, so that all of the above holds of it |
| `DebugJit.InitAndDebug` | src/riscv_jit.c:113-332 | From the bytes of the text to the end of the session: load, attach, call and close. The call ends as the rounds of the specification do, for a closed program at a state of the own path of the guest; afterwards the mapping holds the compiled image again |
| `DebugJit.LoadedRoomy` | src/riscv_gdb.c:409-422 | A loaded text with room for the stub area meets the conditions of `Breakpoints.FirstCommandsObeyed`, and the addresses that have code are the translated ones |
| `DebugLoop.DebugMachine.RunRound` | src/riscv_jit.c:228-329 | One round over the patched code, from any reachable state: what a stay of the IR program with the armed breakpoints and the stop behind it make of guest, pc, fuel, breakpoints, the lifted one and step mode |
| `DebugLoop.DebugMachine.AfterBreak` | src/riscv_jit.c:242-262 | After a hit everything is armed for the debugger, its commands take effect, and then exactly the breakpoint at pc is lifted |
| `DebugLoop.DebugMachine.AfterStep` | src/riscv_jit.c:264-287 | After a borrowed step nothing is left unarmed; only a step the user asked for stops, and only it lets the debugger change anything |
| `DebugLoop.DebugMachine.AfterFault` | src/riscv_jit.c:289-299 | A fault stops with everything armed and ends the call with its kind |
| `DebugLoop.DebugMachine.AfterLeft` | src/riscv_jit.c:301-329 | Return, bad pc, or the next stay, with everything as it was; a break-in stops with everything armed |
| `Dwarf.ReadUleb128` | src/riscv_dwarf.c:49-67 | The unsigned LEB128 value modulo 2^64, and the offset behind it |
| `Dwarf.ReadSleb128` | src/riscv_dwarf.c:69-88 | The signed LEB128 value, wrapped to 64 bits, and the offset behind it |
| `Dwarf.ReadersInvert` | src/riscv_dwarf.c:49-88 | Both readers invert the standard encoders on all 64-bit values, in any surroundings |
| `Dwarf.UlebInverts` | src/riscv_dwarf.c:49-67 | The unsigned reading inverts the encoder for every natural number |
| `Dwarf.SlebInverts` | src/riscv_dwarf.c:69-88 | The signed reading inverts the encoder for every integer |
| `Dwarf.RememberLineRow` | src/riscv_dwarf.c:341-362 | Afterwards the row is not closer than what is kept, and what was kept gives way only to something strictly closer at or before the target with a known file, and only to this row; it gives way exactly then |
| `Dwarf.Remembered` | src/riscv_dwarf.c:341-362 | That leaves exactly one result, the fold step of the kept row |
| `Dwarf.ProgramsMean` | src/riscv_dwarf.c:451-535 | The rows the loop finds in the encoding of any line-number program are the rows that program appends by the standard: special, standard, unknown and extended opcodes, up to the first end of sequence |
| `Dwarf.ConstAddsLikeSpecial` | src/riscv_dwarf.c:451-535 | const_add_pc advances the address as special opcode 255 does, leaves the line alone and emits no row |
| `Dwarf.RunProgram` | src/riscv_dwarf.c:451-535 | The opcode loop keeps the best of the rows of the line-number program, up to the first end of sequence |
| `Dwarf.BestIsArgmin` | src/riscv_dwarf.c:341-362 | The kept row is the earliest of least distance; no row beats it |
| `Dwarf.FoundIff` | src/riscv_dwarf.c:374-375 | A row is found exactly if some row is at or before the target, less than the largest distance away, and has a file number below the count |
| `Dwarf.LookupUnits` | src/riscv_dwarf.c:377-538 | Over all units of version 4 or less, the row kept is the earliest of least distance: no row is closer, and none before it, in its unit or an earlier one, is as close; units of version 4 are read, and if all are of version 5 or more nothing is found |

## Left out

- ELF parsing: text, data region, entry address and symbols are parameters.
- Sockets, packets, polling, hex and register dumps: what the debugger does at a stop is a parameter, as a list of breakpoint commands and a way to resume. Its writes to registers, `cpu.pc` and memory are not modelled.
- `mmap`, `malloc` and `free`: allocation succeeds. Error returns other than the space checks are not modelled.
- The native call of the ecall handler is one step with a given effect: register writes through `riscv_jit_set_reg` and bytes written to guest memory. It returns, keeps the callee-saved registers, and leaves anything in the others.
- The fault handler callback, stack traces, DWARF paths, `.debug_info` and source files.
- INT3, UD2 and host signals end the process; what a signal handler might do is not modelled.
- Flags after instructions other than CMP and TEST are unknown; the generated code never depends on them.
- Local patches inside a bounds check happen in another order than in the source, where the order does not matter. Emitters of one x86 mnemonic each are modelled by one method that selects the encoder.
- Handlers of the front end return the operations that the builder then pushes, instead of pushing themselves; the bit-field macros are quotients and remainders, and or-ing disjoint fields is adding them.
- `qsort` is a library call: any sorting by address stands for it, and nothing depends on how symbols that share an address are ordered, except what such symbols say of the bytes behind them.
- Dispatcher.Machine.Call: the code and the map are values taken from the finished buffer, since nothing writes to them without a debugger; under the debugger `DebugLoop.DebugMachine` runs the patcher's array.
- DebugLoop.DebugMachine.RunRound: `gdb_should_detach` is part of the resume value.
- DebugLoop.DebugMachine.Loop: there is one round for each input, since a call under the debugger need not end.
- Jit.InitAndCall: of a call that faults at an instruction whose stub is cut off nothing is stated, since the fault jump then leads past the mapping.
- DebugJit.InitAndDebug: the text fits the mapping. With stubs cut off there is no room for trap stubs either, so that no breakpoint could be set.
- Ir.EcallLeaves: register numbers above 31 are no `riscv_reg`; in C a write to one would land behind the registers, here it is ignored.
- Dwarf.FoundIff: a row with file number 0 counts as found; the source then uses a pointer it never set (`src/riscv_dwarf.c:426-428`), which is undefined in C.
- Breakpoints.Patcher.Install: host addresses are offsets in the mapping, as only their differences matter.
- Breakpoints.Patcher.Close: the flags of single entries are not cleared, because the table is emptied.
- Dwarf.ReadUleb128: in C, bits beyond the 64th are shifted out of range, which is undefined; here they vanish modulo 2^64.
- Dwarf.RunProgram: line-number programs that read past their section or divide by a zero line range are excluded, as undefined in C; so is an instruction length so large that the address wraps around, which ends the program here.
- Dwarf.LookupUnits: unit headers, directory and file tables are given as values; the text of file names is not modelled.
- Compressed.ExpansionAgrees: floating-point encodings are not part of the instruction set.
