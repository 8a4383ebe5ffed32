# CPUTwo: a verified model

CPUTwo is a 32-bit machine with its tools: an emulator (`emulator.c`), an assembler (`assembler.c`), a linker
(`linker.c`, with the record layouts of `dobj.h`) and a small preemptive kernel (`examples/kernel.asm`). This
project models the four of them in Dafny and proves what they promise each other.

`dafny verify dfyconfig.toml` checks everything.

## What is modelled

**The processor** (`Words`, `Memory`, `Mmu`, `Cpu`, `Machine`). One iteration of the emulator's execute loop is a
function `Cpu.Step` on registers, devices, the 64 MB memory and the 64-entry TLB; a `Mode` switches between the
real machine and a reference machine that walks the page tables on every access. `Machines.Machine` is the same
emulator in its own form: a class whose methods update registers, memory and TLB in place, each proved to have
exactly the effect of its function, up to the whole loop. On top of that stand the TLB theorems
(`TlbRefinement`, `Lockstep`), what a page table means by its raw words (`PageTables`), the privilege transitions
(`Privilege`) and the number of every trap (`Causes`), the device and supervisor registers by their addresses
(`Devices`), preemption (`Preemption`), nested traps (`Unwinding`, and `TrapHandler` with a handler in machine words)
and multi-word arithmetic with the branches (`MultiWord`). The page-table walk splits an address
10/10/12 as Sv32 does (section 4.3 of the RISC-V Privileged Architecture, version 1.12); the bits of an entry are
the machine's own (`architecture.md:468-481`).

**Every mnemonic** (`Bits`, `Arithmetic`, `Instructions`, `Accesses`, `Calls`). From the tokens of a line through its
assembled word to the state of the machine that has executed it, for each mnemonic of the assembler: results are stated
on numbers and single bits, flags bit by bit, targets and link registers by their numbers.

**The toolchain** (`OpTable`, `Lexer`, `Assembler`, `AssemblerMachine`, `Passes`, `Symbols`, `Disasm`, `Dobj`,
`Linker`, `LinkerMachine`, `Moving`, `Tables`, `Toolchain`, `Addends`, `Truncation`, `LostTerm`, `Landing`, `Records`,
`Externals`, `DataLines`, `Expressions`, `Spelling`). The assembler is a pair of functions, one per pass, on lines of tokens; its class form keeps the address, the write position, the output buffer and the two
tables as fields. The linker likewise: functions for layout, symbols, relocation and image, and a class form that
patches section bytes in place. Any reported error makes the programs write no output, so the functions yield
`None` from the first error on. The theorems: the passes agree, linking gives the flat bytes, object files round
trip, relocation is well framed, disassembly reassembles, a control transfer lands where the source says, and what one
source declares `.extern` and another exports meets in the linked image.

**The kernel** (`Scheduler`, `Kernel`). `Kernel.Machine` has the registers and the words of the kernel's data, and
one statement per instruction of the exception entry, the system-call dispatch, the scheduler loop and the context
restore; compares go through the processor's flags. `Scheduler` says on values what that achieves for n tasks over
any sequence of traps.

## Where the code and its documentation differ

The model follows the code. In each place the theorem says exactly when the documented behaviour holds.

- A superpage TLB hit ORs the address of the page-table entry into the result (`emulator.c:254`, `319`; the field's
  comment at line 67 calls it a base address). `TlbRefinement.TlbRefinesWalk` has the exact condition under which
  hit and walk agree, which every 4 KB hit meets, and `SuperpageHitAstray` a case where they do not.
- A load that faults still writes 0 to its destination after the trap was entered (`emulator.c:1020-1024`).
  `Privilege.Cleared` names the register; `Unwinding.FaultUnwinds` says exactly when the trapped code nevertheless goes
  on as it was (the register is PC or held 0), `Privilege.EntryPc` exactly when PC is the handler, and
  `TrapHandler.LoadLosesRegister` runs a load that loses its register.
- CAS bypasses the MMU and goes on after a device read that trapped (`emulator.c:965-979`).
  `Privilege.UserCas` says exactly when it overwrites what the trap entry saved; `CasOverwritesStatus` is a case.
- Pass 1 looks behind one label only when it sizes a data directive (`assembler.c:610-611` against `1289`).
  `Passes.PassesAgree` is an equivalence with that condition; `TwoLabelsDisagree` assembles a source that breaks it.
- A relocation keeps one `+ n` or `- n` of its expression (`assembler.c:295-298`). `Truncation.LinkedIffKept` says what
  linking gives for any expressions, and that it is the flat image exactly when what was dropped is worth nothing: for
  plus and minus terms, when they sum to 0 modulo 2^32. `LostTerm.LongExpressionLost` has the two images of
  `a: .word a + 1 + 1`.
- A load or store displacement is not range-checked (`assembler.c:1045-1060`): of one beyond 16 bits the residue is left.
  `Accesses.DisplacementKept` has the exact condition.
- `POP pc` jumps with its first word (`assembler.c:1210-1220`), before the second adds 4 to sp; `POP sp` leaves the popped
  word plus 4, and `PUSH sp` stores the decremented sp. `Calls.PopLoads` and `Calls.PushStores` state each case.
- CMPI takes a zero-extended immediate (`architecture.md:158`, `emulator.c:918`), but the disassembler prints it signed
  (`emulator.c:753`), and the assembler then refuses a negative one. `Disasm.Canonical` has the condition.
- `test_emulator.c:102-109` expects a halt on a double fault; `raise_exception` has none, and
  `architecture.md:379-383` agrees with the code.
- The kernel's comments say the hardware clobbers r14 on trap entry (`examples/kernel.asm:19-24`). It does not; the
  kernel uses r14 as its own pointer before saving it, which has the same effect for a user task.

## Model

| member | source | states |
|---|---|---|
| `TlbRefinement.TlbRefinesWalk` | emulator.c:198-384 | One access from a coherent TLB has the same memory effect (D bits included), the same fault or success, and leaves the TLB coherent, as on a machine that always walks; the address is the same exactly when a superpage hit does not go astray |
| `TlbRefinement.MissRefinesWalk` | emulator.c:262-384 | A miss translates as the walk does and the entry it fills in is coherent |
| `TlbRefinement.HitRefinesWalk` | emulator.c:211-260 | A hit checks permissions again, faults as the walk faults, and its D-bit write back keeps every entry coherent although two entries may share a page-table entry |
| `TlbRefinement.DirtyKeepsWalks` | emulator.c:242-253 | Setting the D bit in any aligned word changes no walk of any root and address, but for the D bit of the leaf it finds |
| `TlbRefinement.DirtyKeepsCoherence` | emulator.c:366-369 | ... and so keeps the whole TLB coherent: a cached D bit may lag memory, never lead it |
| `TlbRefinement.StoreKeepsCoherence` | emulator.c:574-596 | A store of any width whose bytes miss the L1 and L2 words read by the valid entries' walks keeps the TLB coherent |
| `TlbRefinement.FlushRestoresCoherence` | emulator.c:72-77 | After a flush the TLB is coherent for any root and any memory exactly when its global entries are |
| `TlbRefinement.RootSwitchCoherence` | emulator.c:461-464 | After a SATP write the TLB is coherent for the new root exactly when every surviving global entry is mapped there by the same leaf |
| `TlbRefinement.SuperpageHitAstray` | emulator.c:254-255 | A concrete superpage whose second access is answered with a wrong address |
| `TlbRefinement.FlagsDecide` | emulator.c:217-240 | The twelve cached bits decide every permission check as the whole entry does |
| `TlbRefinement.FindLeafFacts` | emulator.c:262-338 | A walk depends on the page number only, and its leaf is an aligned word inside memory |
| `Mmu.FaultChangesNothing` | emulator.c:269-284 | A translation that faults, by hit, miss or walk, leaves memory and TLB as they were |
| `TlbRefinement.FreshHitIsWalk` | emulator.c:211-260 | For the result of a hit it is enough that the entry hit is coherent, whatever the others are |
| `Lockstep.RunSame` | emulator.c:861-1103 | Runs of any length that edit page tables and switch roots at will: the machine with the TLB and the machine without stay in the same state as long as no access hits an entry the edits have made stale |
| `Lockstep.DisciplinedIsFresh` | emulator.c:211-260 | From a coherent TLB, stores that miss the tables in use let no access hit a stale entry |
| `Lockstep.FenceQualifies` | emulator.c:982-989 | After an SFENCE without global entries the TLB is coherent, whatever was done to the tables before |
| `Lockstep.StepLockstep` | emulator.c:861-1103 | One disciplined instruction of any kind: the machine with the TLB and the machine without end in the same state |
| `Lockstep.RunLockstep` | emulator.c:861-1103 | Runs of any length with any input, under the discipline that stores miss the tables in use: same state throughout, and the TLB stays coherent |
| `Lockstep.ResetQualifies` | emulator.c:1106-1112 | A machine out of reset meets the theorem's condition |
| `Machines.Machine.MmuTranslate` | emulator.c:198-384 | In place: TLB lookup, walk, refill, D-bit write back and fault entry are `Cpu.Translate` |
| `Machines.Machine.TlbHit` | emulator.c:211-260 | The hit path with its write to the entry and to memory |
| `Machines.Machine.TableWalk` | emulator.c:262-384 | The miss path: both levels, permission check, refill |
| `Machines.Machine.TlbFlushNonGlobal` | emulator.c:72-77 | The loop invalidates exactly the non-global entries |
| `Machines.Machine.RaiseException` | emulator.c:149-157 | Trap entry: what is saved, the new STATUS, and the handler from the vector table |
| `Machines.Machine.MmioRead` | emulator.c:387-447 | Every readable device register, the privilege check of the supervisor registers, the consumed input byte |
| `Machines.Machine.MmioWrite` | emulator.c:450-548 | Every writable device register; a SATP write flushes |
| `Machines.Machine.CpuRead` | emulator.c:551-573 | Loads of all widths: translation, bounds, alignment, device or memory |
| `Machines.Machine.CpuWrite` | emulator.c:574-597 | Stores of all widths |
| `Machines.Machine.CpuFetch` | emulator.c:599-612 | Instruction fetch |
| `Machines.Machine.TimerTick` | emulator.c:662-670 | Countdown, reload and the pending interrupt |
| `Machines.Machine.UartPoll` | emulator.c:628-659 | Every thousandth call takes an input byte if there is room |
| `Machines.Machine.InterruptCheck` | emulator.c:673-684 | An enabled, unmasked pending interrupt enters the handler with the next instruction as return address |
| `Machines.Machine.Cas` | emulator.c:965-979 | Compare-and-swap on physical memory and devices |
| `Machines.Machine.Execute` | emulator.c:903-1097 | The effect of a decoded instruction on the whole machine |
| `Machines.Machine.Iterate` | emulator.c:863-1102 | One iteration of the loop, with the three ways through its housekeeping |
| `Machines.Machine.CpuRun` | emulator.c:861-1103 | The loop until HALT is `Cpu.Run` |
| `Privilege.UserStep` | emulator.c:861-1103 | A user-mode step is exactly one trap entry with ESTATUS the old STATUS, STATUS 1 and PC the handler (but for the register a load or CAS clears) if its instruction traps; else it leaves the supervisor state unchanged, and is followed by one interrupt entry exactly if one is due |
| `Privilege.UserRun` | emulator.c:861-1103 | Over any run the supervisor state stays what it was up to the first step that enters supervisor mode, by exactly one entry |
| `Privilege.UserCas` | emulator.c:965-979 | CAS from user mode is one clean trap entry, or none, exactly unless it overwrites a register the entry saved |
| `Privilege.TrapStep` | emulator.c:149-157 | In user and supervisor mode alike: a step whose fetch or instruction traps is one trap entry of that shape, and no interrupt follows it |
| `Privilege.InterruptStep` | emulator.c:673-684 | In either mode an interrupt that is due is one entry with the next instruction as return address, and otherwise the step leaves what its instruction left |
| `Privilege.ExecuteOutcome` | emulator.c:903-1097 | In either mode, which instructions trap: loads and stores without translation, out of memory, misaligned or aimed at a supervisor register from user mode, bad opcodes, division by 0, SYSCALL, and SFENCE, SYSRET, KRET in user mode |
| `Privilege.EntryPc` | emulator.c:149-157 | PC after a trap entry is the handler exactly unless the trapped instruction clears PC (a load into r15) and the handler is not at 0 |
| `Privilege.CasOverwritesStatus` | emulator.c:965-979 | A CAS aimed at STATUS with zero registers leaves user mode on, with PC at the handler |
| `Privilege.UserWrite` | emulator.c:450-479 | A store traps, or else changes no supervisor register from user mode |
| `Privilege.DecodeFaults` | emulator.c:1045-1097 | Decoding itself raises only causes 0 and 4 |
| `Preemption.ExpiryTimes` | emulator.c:662-670 | From count c with period P the timer expires at ticks c, c+P, c+2P, ... and at no other |
| `Preemption.OneTickPerStep` | emulator.c:881-887 | Every iteration ticks exactly once, on every path through the loop |
| `Preemption.StepCountsDown` | emulator.c:1098-1102 | A user step with the timer armed stops, or uses up one of several remaining counts |
| `Preemption.BoundedPreemption` | emulator.c:662-684 | With timer and interrupt armed and count c, every run has halted or entered supervisor mode within c steps |
| `Unwinding.HandlerUnwinds` | emulator.c:1080-1091 | Any handler that runs, saves its frame, works, restores and returns by KRET, trapped and interrupted to any depth, gives its caller r0-r14, PC, flags and STATUS back, is itself given back what it had at every level, and disturbs no live memory |
| `Unwinding.EntryUnwinds` | emulator.c:861-1103 | As one run of the machine: from the step that traps or is interrupted through all the handler's steps, the code continues as it should |
| `Unwinding.HandlerIsRun` | emulator.c:861-1103 | The steps of a handler and of all handlers nested in it are one run of the loop |
| `Unwinding.FaultUnwinds` | emulator.c:149-157 | After a trap and its handler the code has the registers, flags and STATUS it had, at the faulting instruction or after the SYSCALL, exactly unless it was a load (or a CAS whose device read trapped) into a register other than PC that did not hold 0 |
| `Unwinding.InterruptUnwinds` | emulator.c:673-684 | After an interrupt and its handler the code continues with the next instruction in the state the last one left |
| `Unwinding.KretStep` | emulator.c:1080-1091 | A supervisor KRET restores PC, flags and STATUS, takes no interrupt and changes no memory |
| `TrapHandler.PrologueSaves` | architecture.md:383 | 23 instructions that leave r0-r14, EPC, EFLAGS and ESTATUS in a frame below the stack pointer and change nothing else in memory |
| `TrapHandler.EpilogueRestores` | architecture.md:354 | 22 instructions that bring them back, up to the KRET |
| `TrapHandler.StackHandlerDisciplined` | architecture.md:379-383 | Prologue, any disciplined work, epilogue and KRET are a handler the theorem applies to, whatever it is entered with |
| `TrapHandler.PlainDisciplined` | architecture.md:379-383 | ... in particular without any work: a concrete handler of 46 instructions |
| `TrapHandler.CallingDisciplined` | architecture.md:336 | ... and with a SYSCALL from inside the handler, two frames deep |
| `TrapHandler.LoadLosesRegister` | emulator.c:950-952 | A concrete machine: a bus-faulting load, its trap entry and the whole handler leave everything as it was, but r1, which was 7, is 0 |
| `MultiWord.AddChainIsSum` | emulator.c:924-935 | ADD then ADDC over n words is the exact 32n-bit sum with the final carry and signed overflow |
| `MultiWord.SubChainIsDifference` | emulator.c:936-947 | SUB then SUBC over n words is the exact difference with borrow, signed overflow and sign |
| `MultiWord.BranchesDecideOrder` | emulator.c:1032-1051 | After an n-word subtraction BLTU/BGEU and BLT/BGE decide the unsigned and signed n-word comparisons |
| `MultiWord.AddSequenceRuns` | emulator.c:924-935 | The effects of the sequence's instructions one after the other leave the words of the sum in the destination registers and touch no other |
| `MultiWord.SubSequenceRuns` | emulator.c:936-947 | The same for SUB and SUBC |
| `MultiWord.AddOnMachine` | emulator.c:861-935 | The machine that fetches ADD, ADDC, ADDC, ... has the n-word sum in the destination registers, its carry and overflow in the flags and PC behind the sequence, whatever interrupts were handled in between |
| `MultiWord.SubOnMachine` | emulator.c:861-947 | The same for SUB, SUBC, ... and the difference |
| `MultiWord.AddOneWord` | emulator.c:173-183 | Carry and overflow of one addition, with and without carry in |
| `MultiWord.SubOneWord` | emulator.c:184-192 | Borrow, overflow, zero and sign of one subtraction |
| `MultiWord.CompareAndBranch` | emulator.c:917-918 | CMP or CMPI followed by any branch jumps exactly when the relation in its name holds, overflow included |
| `Lexer.TokenizeLine` | assembler.c:491-501 | The tokenizing loop yields the tokens of the line or reports the unexpected character |
| `Assembler.FindSymbol` | assembler.c:256-261 | An entry of that name with none of that name before it, or none of that name at all |
| `Assembler.Ensure` | assembler.c:263-274 | The first entry of that name, in a table that keeps all entries and has one more at its end exactly when the name is new |
| `AssemblerMachine.Assembly.EmitByte` | assembler.c:582-591 | One byte at the write position; overflow is an error; the address moves on |
| `AssemblerMachine.Assembly.Emit` | assembler.c:302-310 | A line's relocations at the section-relative position, and its bytes |
| `AssemblerMachine.Assembly.FindSymIndex` | assembler.c:276-280 | The linear search finds the first entry of that name |
| `AssemblerMachine.Assembly.CollectLabels` | assembler.c:1288-1304 | All leading labels get the current address; a defined one is an error |
| `AssemblerMachine.Assembly.FirstPassDirective` | assembler.c:1309-1364 | Address, section base and symbols after a directive in pass 1 |
| `AssemblerMachine.Assembly.FirstPass` | assembler.c:1278-1373 | The pass-1 loop is `RunPass1` |
| `AssemblerMachine.Assembly.SecondPassDirective` | assembler.c:649-779 | Bytes, relocations and symbols of a directive in pass 2; the address stays the write position |
| `AssemblerMachine.Assembly.AssembleLine` | assembler.c:835-1275 | One line of pass 2 |
| `AssemblerMachine.Assembly.SecondPass` | assembler.c:1376-1391 | The pass-2 loop is `RunPass2`, with the address equal to the write position at every line |
| `AssemblerMachine.AssembleToImage` | assembler.c:1452-1488 | Both passes over one object give the flat image |
| `AssemblerMachine.AssembleToObject` | assembler.c:321-382 | ... and in object mode the section from its base on, with symbols and relocations |
| `Passes.PassesAgree` | assembler.c:582-637 | In an error-free assembly every line starts in pass 2 at its pass-1 address exactly when no data directive that takes room has more than one label before it |
| `Passes.LineAgrees` | assembler.c:1278-1391 | The same for a single line, one step of both passes |
| `Passes.SizeOfMnemonic` | assembler.c:642-647 | The size pass 1 takes from the spelling is the size of the table row's format |
| `Passes.LineBytesInImage` | assembler.c:1376-1391 | Every line's bytes sit in the final image at the address the line started at |
| `Passes.TwoLabelsDisagree` | assembler.c:610-611 | `a: b: .word 1`, `c: .word c` assembles without error, its second line starts at 0 in pass 1 and at 4 in pass 2, and so it stores 0 at address 4 |
| `Symbols.SymbolsAreStable` | assembler.c:1278-1391 | With every `.equ` referring to settled names, pass 2 sees at every line the table pass 1 ended with |
| `Symbols.KeptToTheEnd` | assembler.c:1288-1364 | A symbol that no later line assigns keeps its value to the end of pass 1 |
| `Disasm.DisassemblyReassembles` | emulator.c:696-778 | Tokenizing and assembling the disassembly of w at its address gives w, exactly for the canonical words; for any symbol table, flat or object mode |
| `Disasm.AssembledDisassembles` | assembler.c:835-1275 | The other way round: the word of an assembled instruction line is given back by disassembling and assembling again, exactly unless it is a CMPI with an immediate from 0x8000 on or its target lies outside the address space |
| `Disasm.ReadsOperands` | emulator.c:705-776 | The printed operands of every layout, with signed, unsigned and hex numbers and `[r1+-4]`, tokenize as intended |
| `Disasm.Reassembled` | assembler.c:865-1248 | What the assembler makes of the printed operands of each layout, and which it refuses |
| `Disasm.MnemonicsMatch` | assembler.c:145-221 | Every listed mnemonic but KRET is the assembler's, with the same opcode and layout |
| `Disasm.PrintedTarget` | emulator.c:705-706 | The distance to a printed target is the instruction's own offset unless the target wrapped |
| `Dobj.RoundTrip` | linker.c:91-172 | Reading the written file gives back section, symbols (names up to 27 bytes), relocations with signed addends, and data |
| `Dobj.HeaderReads` | assembler.c:336-343 | The header's counts and data offset are the true ones |
| `Dobj.WriteDobj` | assembler.c:321-382 | The writing loops produce header, section header, symbol and relocation records and data in order |
| `Linker.LayoutSound` | linker.c:175-190 | A section without a hint is 4-aligned, at or above the text base and behind every earlier section, so overlap needs a later hinted one |
| `Linker.GlobalsFound` | linker.c:193-219 | A name resolves to the one object that exports it: its section base plus offset |
| `Linker.FoundIffExported` | linker.c:193-219 | A name is found in the global table exactly when some object exports it |
| `Linker.GlobalsSucceedIff` | linker.c:193-219 | The global table can be built exactly when no name is exported twice |
| `Linker.ApplySitesPatches` | linker.c:222-304 | Relocation changes exactly the selected field of each site and nothing else |
| `Linker.RelocationSucceedsIff` | linker.c:256-301 | It succeeds exactly when every site is in bounds, of a known type and within reach |
| `Linker.LinkSucceedsIff` | linker.c:222-304 | Without duplicate globals, linking succeeds exactly when every relocation names a section, a defined symbol, a known type, a site in bounds and a distance of 20 signed bits |
| `Linker.LinkSucceedsExactly` | linker.c:193-304 | ... and in terms of the objects alone: exactly when no name is exported twice and every relocation names a section and a symbol of its own or one some object exports, is of a known type, in bounds and within reach |
| `Linker.RelocationOrderFree` | linker.c:222-304 | The order of the relocations does not matter |
| `Linker.RelocationIdempotent` | linker.c:222-304 | Relocating a relocated image changes nothing |
| `Linker.ImageHoldsSections` | linker.c:307-335 | With disjoint sections the image has each section at its base and zero elsewhere |
| `LinkerMachine.LinkRun.AssignBases` | linker.c:175-190 | The layout loop, writing each section's base |
| `LinkerMachine.LinkRun.LookUp` | linker.c:84-88 | The linear search in the global table |
| `LinkerMachine.LinkRun.BuildGlobals` | linker.c:193-219 | The loops that collect exported symbols; a duplicate is an error |
| `LinkerMachine.LinkRun.Patch` | linker.c:256-301 | One site patched in its section's bytes; no other section changes |
| `LinkerMachine.LinkRun.Resolve` | linker.c:226-254 | Where a relocation is and what it asks for |
| `LinkerMachine.LinkRun.ResolveRelocs` | linker.c:222-304 | The relocation loops have the effect of all sites, one after the other |
| `LinkerMachine.LinkRun.EmitOutput` | linker.c:307-335 | The size loop and the copying loop make the image |
| `LinkerMachine.LinkObjects` | linker.c:369-419 | The whole link: bases, symbols, relocation, image |
| `Toolchain.LinkedIsFlat` | linker.c:222-335 | With nothing before the first `.org`, the linked object file is byte for byte the flat image, and one exists exactly when the other does |
| `Toolchain.LinkedAtBaseIsFlat` | assembler.c:699-707 | Without `.org`, linking at a base that every alignment divides gives the flat image of the source with `.org` base before it |
| `Toolchain.SitesPatched` | linker.c:256-301 | The object's data with all its sites patched is the flat data |
| `Moving.LineMoves` | assembler.c:835-1275 | One line: in the object file and flat, some bytes further on, it assembles or not alike, and relocation turns the one into the other |
| `Moving.SimpleRefValue` | assembler.c:285-300 | For `sym`, `sym+n` and `sym-n` the peeked symbol and addend are what the expression evaluates to, at any shift |
| `Addends.EvalDropped` | assembler.c:285-300 | The object file keeps the label and one addend; the expression's value is what its remaining terms make of that |
| `Addends.KeptIffSumZero` | assembler.c:285-300 | For `sym` with any plus and minus terms, at any address: the kept value is the expression's exactly when the dropped terms sum to 0 modulo 2^32 |
| `Addends.ShiftedKept` | assembler.c:295-298 | With a dropped `>> n`: exactly when n is 0 or the kept value is |
| `Addends.InertTail` | assembler.c:543-571 | A dropped tail of plus, minus and shift terms changes no value, wherever the label is, exactly when all shifts are by 0 and the terms sum to 0 modulo 2^32 |
| `Truncation.ObjectIsCut` | assembler.c:285-310 | The object file of a source with any label expressions is that of the source cut down to what relocations keep |
| `Truncation.FlatIffKept` | assembler.c:1376-1391 | The flat images of the source and of the cut source are equal exactly when every wide reference is worth what is kept of it |
| `Truncation.LinkedIffKept` | linker.c:222-335 | Linking, with an origin and any expressions: the image is that of the cut source, and the flat image exactly when nothing of value was cut; for plus and minus terms exactly when those dropped on a line sum to 0 modulo 2^32 |
| `Truncation.LinkedAtBaseIffKept` | linker.c:222-335 | The same without an origin, linked at a base |
| `LostTerm.LongExpressionLost` | assembler.c:295-298 | `.org 0x100`, `a: .word a + 1 + 1`: the linked image has 0x101 where the flat one has 0x102 |
| `Tables.FinalTable` | assembler.c:1278-1373 | The table pass 1 ends with holds exactly the source's labels as labels |
| `Tables.Pass1Moves` | assembler.c:1278-1373 | Pass 1 of the source put further on is pass 1 of the source, moved |
| `Landing.TransferReachesLabel` | assembler.c:1061-1115 | In an error-free flat assembly a branch, JMP or CALL to `y`, `y+n` or `y-n` transfers, when executed, to the address the line labelled y starts at, plus n |
| `Landing.EveryTransferLands` | assembler.c:1061-1115 | Every transfer of a flat assembly goes to the value of its operand |
| `Landing.EveryLongLoadLoads` | assembler.c:1116-1149 | Every MOVI32 of a flat assembly leaves the 32-bit value of its operand in its register |
| `Landing.LongLoadGetsLabel` | assembler.c:1116-1149 | ... which for a label is the address its line starts at, plus the addend |
| `Landing.LinkedTransferReachesSymbol` | linker.c:286-298 | In a linked image a transfer relocated against a symbol of any object goes to the symbol's final address plus the addend |
| `Landing.LinkedPairLoads` | linker.c:266-277 | A MOVI32 pair patched by its two relocations loads their common target from the image |
| `Landing.LinkedPairLoadsSymbol` | linker.c:226-277 | ... which for a symbol of any object is its final address plus the addend |
| `Landing.MachineLands` | emulator.c:1049-1057 | The machine that fetches such a word continues at the target, with the return address in the link register |
| `Landing.MachineLoads` | emulator.c:1016-1017 | The machine that executes such a pair, interrupts in between or not, has the value in the register; each of the two instructions changes that register and PC and nothing else but the TLB |
| `Landing.OffsetField` | emulator.c:900-901 | A distance stored in 20 bits is read back by sign extension |
| `Scheduler.ResumedAsTrapped` | examples/kernel.asm:199-261 | Over any interleaving of traps a task runs again with exactly the r0-r13, PC and flags it trapped with, but for the result of a write |
| `Scheduler.FirstRunAsCreated` | examples/kernel.asm:177-193 | A task that has not run yet starts with the context it was created with |
| `Scheduler.RoundRobinIsFair` | examples/kernel.asm:352-379 | Among n tasks one that stays runnable is chosen within n calls of the scheduler, from any state of any run |
| `Scheduler.HaltsWhenAllDead` | examples/kernel.asm:414-417 | The search ends in all-dead exactly when no task is runnable |
| `Scheduler.ChosenIsNext` | examples/kernel.asm:361-379 | No task between the old and the new one, in cyclic order, was runnable |
| `Scheduler.NoRevival` | examples/kernel.asm:275-320 | A zombie never runs again |
| `Scheduler.RunsRunnable` | examples/kernel.asm:375-379 | Only runnable tasks are dispatched |
| `Kernel.Machine.CreateTask` | examples/kernel.asm:177-193 | The four fields written, nothing else |
| `Kernel.Machine.ExceptionEntry` | examples/kernel.asm:199-252 | r0-r13, EPC and EFLAGS land in the current block; no other block and no scheduler variable changes |
| `Kernel.Machine.IrqHandler` | examples/kernel.asm:264-271 | The timer interrupt, and no other, is acknowledged |
| `Kernel.Machine.SyscallDispatch` | examples/kernel.asm:296-347 | Exit and unknown calls kill, write returns its length, yield changes nothing |
| `Kernel.Machine.SysWrite` | examples/kernel.asm:322-344 | The loop sends exactly the buffer, and the length goes to the saved r0 |
| `Kernel.Machine.FindNext` | examples/kernel.asm:352-379 | The loop terminates and finds what the search finds |
| `Kernel.Machine.RestoreRegisters` | examples/kernel.asm:391-411 | All of r0-r13 come back, the pointer register and r0 last |
| `Kernel.Machine.Schedule` | examples/kernel.asm:352-417 | Chooses the next task and returns to it in user mode with interrupts on, or halts |
| `Kernel.Machine.OnTrap` | examples/kernel.asm:199-417 | From trap to return: the scheduler's step, the chosen task's context visible, user mode with IE = 1, the timer acknowledged, the written bytes sent |
| `Kernel.EnterIsTrapEntry` | emulator.c:149-157 | The trap entry the kernel is given is the processor's |
| `Kernel.SysretIsReturn` | emulator.c:1069-1074 | ... and so is its return |
| `Kernel.Machine.Start` | examples/kernel.asm:109-170 | n tasks as created, and the first one running |
| `Kernel.RunTraps` | examples/kernel.asm:199-417 | A run of the kernel over any sequence of traps is the run `Scheduler` speaks about, and the terminal gets what the writes send |
| `PageTables.PageAnswer` | emulator.c:262-384 | For every address and access: if the word at `satp % 2^20 * 4096 + 4 * (va / 2^22)` is valid without R, W, X and the word at `w1 / 4096 * 4096 + 4 * (va / 4096 % 1024)` is a valid `w`, the walk answers `w / 4096 * 4096 + va % 4096` exactly when `w` allows the access, marks D on a store, and else faults |
| `PageTables.RegionAnswer` | emulator.c:285-326 | The same for a 4 MB page: `w / 2^22 * 2^22 + va % 2^22` from the first-level word alone |
| `PageTables.NoOtherAnswer` | emulator.c:262-338 | A page fault is due exactly when no mapped page or region allows the access |
| `PageTables.PermissionBits` | architecture.md:468-481 | Bit 5 allows loads, bit 6 stores, bit 7 fetches, and bit 8 is needed from user mode |
| `PageTables.EntriesApart` | architecture.md:457-463 | Two pages of one 4 MB region have different second-level words, two regions different first-level words |
| `PageTables.Untranslated` | emulator.c:198-209 | With bit 31 of SATP clear, and for device addresses, an address stands for itself |
| `PageTables.MachineAnswers` | emulator.c:198-384 | With or without TLB, a table in memory that maps page v by the word f(v) makes the machine answer `f(v) / 4096 * 4096 + va % 4096` exactly when f(v) allows the access |
| `PageTables.MappedLoad` | emulator.c:551-573 | A load then reads the frame |
| `PageTables.MappedStore` | emulator.c:574-597 | A store then writes the frame and no other byte but the entry with its D bit |
| `PageTables.MappedFetch` | emulator.c:599-612 | A fetch takes the instruction from the frame |
| `Causes.StepCause` | emulator.c:149-157 | For every step: it traps exactly when there is one of ten reasons; CAUSE is then the reason's number (illegal or privileged 0, misaligned 1, outside memory or supervisor register from user mode 2, SYSCALL 3, zero divisor 4, untranslated fetch, load, store 7, 8, 9), BADADDR the faulting address for 7 to 9 and unchanged for the others, and PC the word at EVEC + 4 times the number |
| `Causes.OpCause` | emulator.c:551-612 | One instruction traps exactly when there is a reason, with the reason's number and bad address |
| `Causes.DecodedFaults` | emulator.c:1045-1097 | Decoding faults exactly on an opcode above 0x3F, a branch condition above 10 (cause 0) and a division by zero (cause 4) |
| `Causes.InterruptCause` | emulator.c:673-684 | An interrupt has cause 6, leaves BADADDR alone and goes to the seventh handler |
| `Devices.AckClears` | emulator.c:510 | A store of v to 0x03F02008: a bit is pending afterwards exactly when it was and v does not have it; nothing else changes |
| `Devices.AckStep` | emulator.c:505-511 | Over the whole step of such a store: pending exactly what was and is not acknowledged, and what expired or arrived in that very step |
| `Devices.HousekeepingBits` | emulator.c:628-670 | An iteration sets pending bit 0 exactly when the enabled timer runs out, bit 1 exactly for an announced input byte, and no other |
| `Devices.DueIff` | emulator.c:673-684 | An interrupt is due exactly when STATUS bit 1 is set and some bit is pending and in the mask |
| `Devices.MaskSets` | emulator.c:509 | A store to 0x03F02004 sets the mask and nothing else |
| `Devices.PendingReads` | emulator.c:430 | A load from 0x03F02000 reads the pending word; a store there does nothing |
| `Devices.Transmits` | emulator.c:483-489 | A store to 0x03F00004 sends its low byte, and makes bit 2 pending exactly when control bit 1 is set |
| `Devices.Receives` | emulator.c:628-659 | Every thousandth iteration takes the input byte: status, data once, and then no byte |
| `Devices.TimerSets` | emulator.c:497-501 | Stores to the timer's period and control |
| `Devices.PeriodExpires` | emulator.c:497-500 | A period P written to an enabled timer expires it at the iterations P, 2P, 3P, ... from then on and at no other |
| `Devices.CountReads` | emulator.c:422 | A load from 0x03F01000 after n ticks reads P - n |
| `Devices.ReturnsToWritten` | emulator.c:455-460 | What is stored to EPC, EFLAGS and ESTATUS is what SYSRET and KRET return to |
| `Devices.VectorWritten` | emulator.c:457 | What is stored to EVEC is where the handlers' addresses are found |
| `Devices.StatusWritten` | emulator.c:459 | Bit 0 of what is stored to STATUS is the mode, bit 1 enables interrupts |
| `Devices.RootWritten` | emulator.c:461-464 | A store to SATP sets the root and keeps exactly the global TLB entries |
| `Devices.CauseReads` | emulator.c:395-399 | CAUSE and BADADDR read what the last trap left, whatever is stored to them |
| `Devices.WrittenReadsBack` | emulator.c:387-548 | Ten further registers read back what was written |
| `Devices.SilentStep` | emulator.c:662-684 | A step with only the timer unmasked and not pending, several counts to go: no interrupt, and still so |
| `Devices.SilentRun` | emulator.c:662-684 | ... over runs of any length below the count, across traps and returns |
| `Devices.AckedRun` | examples/kernel.asm:264-271 | From the step that acknowledges the timer on, through the rest of the handler, its return and the resumed task, no interrupt is taken before the next expiry |
| `Arithmetic.Sums` | emulator.c:173-183 | Sum modulo 2^32; C exactly for a sum from 2^32 on, V exactly when the signed sum is out of range; N, Z and the other 28 bits |
| `Arithmetic.Differences` | emulator.c:184-192 | The same for differences, C being the borrow |
| `Arithmetic.RolBits` | emulator.c:961-964 | Bit k of a word rotated left by n is found at (k + n) % 32 |
| `Arithmetic.RorBits` | emulator.c:961-964 | ... and rotated right at the reverse |
| `Arithmetic.AsrFloors` | emulator.c:913 | An arithmetic shift divides the signed number by 2^n, rounding down |
| `Arithmetic.TruncDivides` | emulator.c:1000-1003 | DIV and MOD: quotient truncated, remainder with the sign of the dividend, together the dividend |
| `Instructions.RegisterInstruction` | assembler.c:872-893 | ADD, ADDC, SUB, SUBC, AND, OR, XOR, LSLR, LSRR, ASRR, ROLR, RORR, MUL, MULH, MULHU, DIV, DIVU, MOD, MODU with three registers: the line assembles; the machine that executes its word computes the operation of that name, result and flags, into rd and changes nothing else but PC; a zero divisor traps |
| `Instructions.RegistersRequired` | assembler.c:872-893 | ... and it assembles exactly when the operands are registers |
| `Instructions.ImmediateInstruction` | assembler.c:910-1006 | ADDI, SUBI, ANDI, ORI, XORI, LSL, LSR, ASR, LSLI, LSRI, ASRI, ROLI, RORI: the line assembles exactly when the value is in the mnemonic's range, and computes the operation on register and value |
| `Instructions.CopyInstruction` | emulator.c:910-914 | MOV copies with the flags kept; NOT inverts each of the 32 bits |
| `Instructions.MoveImmediate` | assembler.c:1007-1044 | MOVI, LUI and MOVHI take 0 to 65535 and set the word, the high half over zeros, or the high half over what is there |
| `Instructions.CompareInstruction` | emulator.c:917 | CMP leaves the flags of the subtraction and changes no register but PC |
| `Instructions.CompareImmediate` | assembler.c:1166-1181 | CMPI takes exactly 0 to 65535 and compares with the number |
| `Instructions.PlainInstruction` | assembler.c:866-871 | NOP clears r0 and does nothing else; HALT stops with everything kept; SYSCALL, SYSRET and SFENCE are those instructions |
| `Instructions.RegisterNames` | assembler.c:238-252 | r0 to r15 in decimal, sp 13, lr 14, pc 15, in either case |
| `Instructions.UnknownMnemonic` | assembler.c:835-863 | A mnemonic that is not in the table is an error |
| `Accesses.DisplacedInstruction` | assembler.c:781-833 | LW, LH, LHU, LB, LBU, SW, SH, SB with any form of the operand: little-endian bytes at base plus displacement, LH and LB with the sign extended; a store writes those bytes and no other |
| `Accesses.DisplacementKept` | assembler.c:1045-1060 | The displacement the machine adds is the written one exactly when that is in [-32768, 32767] |
| `Accesses.IndexedInstruction` | assembler.c:1221-1248 | The eight indexed loads and stores: the address is the sum of the two registers, the second being r0 when none is written |
| `Accesses.SwapInstruction` | emulator.c:965-979 | CAS on a word of memory: equal to rd, it becomes rs2 and Z is set; else rd becomes the word and Z is cleared; nothing else changes |
| `Calls.TransferInstruction` | assembler.c:1061-1115 | Eleven branches, JMP and CALL: the line assembles exactly when the target is within 512 KB; its word goes there, under the condition of that name on N, Z, C, V, linking through JMP's register or, for CALL, r14, and changes nothing else |
| `Calls.ConditionDecides` | emulator.c:1032-1051 | After CMP or CMPI every branch decides the relation in its name, signed or unsigned |
| `Calls.CallReturns` | assembler.c:1182-1188 | A step on the word of a CALL line puts the next address in r14; a callee that executes the word of a RET line with r14 as found continues there, with everything else as it left it |
| `Calls.CallReachesLine` | assembler.c:1249-1272 | In a program: `CALL y`, `y + n` or `y - n` goes to where the line labelled y starts, plus n, with the address of the line after the CALL in r14 |
| `Calls.CallRegister` | emulator.c:921 | CALLR rd, rs1 goes to rs1 and links through rd |
| `Calls.BranchRegister` | assembler.c:1189-1198 | BR r goes to r |
| `Calls.Returns` | assembler.c:1182-1188 | RET goes to r14 |
| `Calls.PushPop` | assembler.c:1199-1220 | PUSH r, anything that keeps sp and the pushed word, POP r': the value is in r', sp is restored, and exactly one word of memory was written |
| `Calls.PushStores` | assembler.c:1199-1209 | What each PUSH leaves, of any register |
| `Calls.PopLoads` | assembler.c:1210-1220 | What each POP leaves, into any register, pc and sp included |
| `Records.RecordsTell` | assembler.c:352-364 | From source to file and back: one record a name; section 0xFFFF and value 0 exactly for a name declared `.extern`, section 0 for any other; global byte 1 exactly for a name declared `.global`; a label's value is its line's distance from the origin |
| `Records.RecordOf` | assembler.c:352-364 | Every label, `.extern` and `.global` name of the source has its record |
| `Dobj.SymbolLayout` | dobj.h:19 | The bytes of a symbol record: name, value at 28, section at 32, global at 34 |
| `Dobj.RelocationLayout` | dobj.h:20 | The bytes of a relocation record: offset, symbol at 4, type at 8, section at 9, addend at 12 |
| `Externals.ExternalTransfer` | linker.c:193-304 | Any number of sources, assembled, written, read and linked: a branch, JMP or CALL of one to `y`, `y + n` or `y - n`, external there and an exported label of another, goes to the label's final address plus n as its mnemonic says, CALL linking through r14 |
| `Externals.ExternalWord` | linker.c:256-265 | ... and a `.word` of it holds that address |
| `Externals.ExternalLoad` | linker.c:266-277 | ... and a MOVI32 of it loads that address |
| `Externals.AcrossTwoFiles` | test_linker.c:251-292 | The case of two files without origins, with the addresses the layout gives |
| `Externals.LinkedApart` | assembler.c:302-310 | Relocated words of assembled sources never overlap |
| `Externals.UnhintedApart` | linker.c:175-190 | Sources without an origin, except perhaps the first, are laid out without overlap |
| `Linker.LayoutTight` | linker.c:175-190 | A section with a hint is at its hint; one without is at the first multiple of 4 from the text base or the end of an earlier section |
| `DataLines.DirectiveNames` | assembler.c:649-779 | The eleven directives by name, in any case, and no other |
| `DataLines.DataInImage` | assembler.c:1376-1391 | Every line's bytes are in the flat image at the line's address, one line behind the other, up to the end |
| `DataLines.WordLine` | assembler.c:697-714 | `.word`: four bytes of the value, the lowest first |
| `DataLines.ByteLine` | assembler.c:715-723 | `.byte`: the value modulo 256 |
| `DataLines.SpaceLine` | assembler.c:724-731 | `.space n`: n zero bytes |
| `DataLines.TextLine` | assembler.c:732-749 | `.ascii` and `.asciiz`: the characters up to the first NUL, and a zero byte |
| `DataLines.AlignLine` | assembler.c:750-762 | `.align a`: fewer than a zero bytes, to a multiple of a |
| `DataLines.OriginLine` | assembler.c:654-676 | `.org a`: zero bytes up to a, an error when beyond |
| `DataLines.SilentLine` | assembler.c:678-695 | Declarations take no room; an unknown directive is an error |
| `DataLines.OutputLimit` | assembler.c:582-591 | A source that reserves n bytes assembles exactly when n is at most 8 MB |
| `Expressions.ExpressionValue` | assembler.c:507-579 | An expression has a value exactly when all its operands have one; it is then what the sums, differences and signed shifts, from left to right, make of the first |
| `Symbols.DuplicateLabelFails` | assembler.c:1290-1301 | A name that labels two lines makes both assemblies fail, unless an `.extern` for it stands between them |
| `Spelling.SpelledIsRead` | assembler.c:391-501 | Every list of tokens, with any blanks, escapes in strings, numbers in decimal, hexadecimal or octal, and any comment behind, is read as these tokens |
| `Spelling.UnexpectedIsRefused` | assembler.c:391-489 | A character that starts no token, outside strings and comments, makes the line an error |
| `Kernel.AckIsStore` | emulator.c:510 | The kernel's acknowledge is the processor's store of 1 to 0x03F02008: exactly the timer's bit goes |

## Left out

- Host I/O: terminal mode, signals, escape keys, the wait register's `select`, and the block device's file access. The
  machine is one started without a disk image; the byte found by an input poll is a parameter of the step.
- The debugger, the ELF loader, `main` of the tools, map files, `.include`, and the text of error messages. A source is a
  sequence of lines, a file a sequence of bytes.
- After an error the programs go on in order to report more errors; the model stops at the first, since nothing is written.
- Table capacities (symbols, relocations, tokens of a line, section counts) and 64-bit overflow in assembler expressions.
- DIV and MOD of the most negative number by -1, a shift by a negative amount in an expression, and accesses past the
  end of the memory array are undefined in C; the model gives them some value.
- A relocation offset within 4 of 2^32 wraps in the linker's bounds check; the model counts it as out of bounds.
- The theorems that compare a linked image with a flat one (`Toolchain`, `Truncation`) are about sources without external
  symbols, in which no label is given a value by `.equ`; external symbols are the subject of `Records` and `Externals`.
- Externals.ExternalTransfer: asks that no two sections lie on top of each other, which the linker does not check;
  `Externals.UnhintedApart` has it for sources without origins. A symbol named like a register is not relocated.
- The kernel's messages, its polling of the always-ready transmitter, its stack and the setting of the timer registers:
  `Message` may change r0, r14 and the flags. The kernel is modelled instruction by instruction in statements of a class,
  not as the words of its assembled image; its data are the words from 0x1020 on, for as many tasks as fit below the
  devices, wherever the stack would then have to be.
- Lockstep.RunLockstep: asks that no superpage hit be answered wrongly and that stores miss the tables in use, because the
  machine does not hold the theorem without; runs that edit tables in use are the subject of `Lockstep.RunSame`.
- Accesses.DisplacedInstruction: says what happens in memory; loads and stores of device registers are in `Devices`, those
  that trap in `Causes`.
- Unwinding.HandlerUnwinds: is about handlers that return by KRET, not by SYSRET; a CAS that overwrites its own trap entry
  (`Privilege.UserCas`) is not an entry it speaks about.
- TrapHandler.StackHandlerDisciplined: the handler runs with address translation off.
- Machines.Machine.MmioWrite: the disk command of a machine with an image, and the wait of a write to the wait register,
  are not modelled.
- Machines.Machine.UartPoll: the escape keys are not modelled; the byte given is the one the guest would get.
- Kernel.Machine.SysWrite: asks that the buffer lie in memory below the devices; a kernel that faults while reading it is
  not modelled.
- Kernel.Machine.Start: the setting of EVEC and its table, of the timer and of the interrupt controller, and the banner
  are not modelled.
- Kernel.RunTraps: a task is the sequence of its traps. The kernel sets up no address translation, so on the machine a
  task can write to the control blocks; in the model it cannot, by construction. That the assembled words of the kernel,
  run by `Cpu.Run`, do what `Kernel.Machine.OnTrap` does is not proved.
- The example programs other than the kernel.
