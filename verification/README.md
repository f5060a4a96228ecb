# Remu in Dafny

A model of the hardest parts of Remu, an emulator made of several CPU interpreters and a Linux process layer, with
proofs of what those parts are for. Five components are modelled, each in its own group of files.

**ARM32 core** (`arm_*.dfy`). `ArmMachine` is the plain machine: a flat store of 31 physical registers, memory as a
sequence of bytes, every instruction fetched and decoded afresh. `ArmCpu.Cpu` is the processor as it is built: a
window of sixteen registers with banks behind it, a direct-mapped cache of decoded instructions whose only evidence
is a store clock, per-page write stamps and an invalidation watermark, stamped stores, and a batched run loop with a
doorbell. The processor is proved to be the plain machine over every history of steps, batches, interrupt lines,
host writes, injected exceptions, direct register writes and resets. Write stamps are indexed by page modulo 16384
while the RAM wraps at its size, so this is unconditional for a RAM that is a multiple of 64 MiB and otherwise holds
for every history of the plain machine in which no fetch or store uses an address outside the first copy of the RAM in
its 64 MiB window; those are exactly the addresses whose cell is never reached through another slot. The header of
`src/arm32/icache.rs` says without a condition that the stamps make self-modifying code exact. Below 64 MiB that fails,
because mirrors of the RAM share a cell and not a stamp slot; `ArmStale.StaleRun` is a history of the whole processor
that shows it.

**64-bit process address space** (`phys_mem`, `page_tree`, `page_views`, `guest_memory`, `regions`, `address_space`,
`process_runs`, `stack_builder`). The tree of page tables lives in the memory it maps. A ghost owner for every
allocated frame (a table for one level and prefix, or the data of one page) gives the separation invariant; under it
the stores of `set_pte`, `map_range`, `protect` and `unmap` act on a finite map from pages to frame and permission,
guest copies change exactly the bytes they cover, and the initial stack can be read back. The tree lemmas are generic
in the number of levels.

**Division and shifts on two x86 generations** (`words`, `x86_flags`, `x86_division`, `x86_shifts`, `i386_division`),
at every operand width rather than for each instance.

**386 decoder and interpreters** (`i386_machine`, `i386_hot`, `i386_equivalence`, `i386_decoupled`,
`i386_independence`, `i386_steps`, `i386_cached`, `i386_cpu`). The decoder that turns bytes into a packed,
register-independent instruction, and its executor, are proved equivalent to the direct interpreter for every opcode,
byte stream, prefix state, register file, ALU and memory. Whole runs follow, through hot and cold instructions, faults
and interrupts, and with a cache of decoded instructions in front.

**Interruptible REP** (`i386_rep`): re-entering a string instruction until EIP moves past it is one uninterrupted
execution.

## Hypotheses

- Page tables: an entry can hold frames below 2^52. `nextPhys` bounds how far the frame cursor moves in each call, so
  a caller can tell beforehand that it still fits; once it does not, nothing is claimed of the tables.
- Guest copies: the exact byte-by-byte statement is for copies of at most 2^48 bytes, the addresses a walk can tell
  apart. What a call returns is stated for all lengths.
- 386: reads of memory have no side effects. The ALU, the conditions, the memory, every opcode outside the hot subset,
  instructions with LOCK or REP, far transfers, and the delivery of a fault are arbitrary functions of the state, shared
  by both paths. Outcomes that fault are compared after the fault epilogue, which resets EIP and the general registers.
- 386 cache: a hit is taken only while the instruction's bytes and the default size are those the entry was decoded
  from (`I386Cached.Current`), which is what the key, the stamp and the limit check of `src/x86_32/icache.rs` are for.
- ARM: the store clock and the cycle counter do not wrap.

## Model

| member | source | states |
|---|---|---|
| `ArmCpu.Drive` | src/arm32/mod.rs:507-669 | Over any history of steps, batches, line changes, host writes with invalidation, trap and option changes, injected exceptions, register, mode and status writes and resets, the cached and banked processor ends in exactly the state of the plain machine: always when the RAM is a multiple of 64 MiB, otherwise whenever the plain machine's own history never strays outside the first copy of a 64 MiB window |
| `ArmCpu.Serve` | src/arm32/mod.rs:427-604 | The same for one host action, and exactly when it makes the processor stray |
| `ArmCpu.Cpu.FetchDecoded` | src/arm32/mod.rs:617-660 | What the cache probe or the refill yields is the decode of the bytes now in memory, and it is in the cache afterwards |
| `ArmCpu.Cpu.ExecOne` | src/arm32/mod.rs:617-669 | Probe, advance and execute is one fetch-decode-execute of the plain machine, with the same cycles; strayed or not, it executes exactly the decode the cache answered |
| `ArmCpu.Cpu.StepSlow` | src/arm32/mod.rs:579-604 | Event delivery, idling and execution off the fast path are a step of the plain machine; a trap recorded here has rung the doorbell |
| `ArmCpu.Cpu.Run` | src/arm32/mod.rs:520-550 | A batch of the processor is the batch of the plain machine: same state, same count, same exit |
| `ArmCpu.Cpu.RunBoundary` | src/arm32/mod.rs:553-578 | A boundary exits without touching the state when a trap waits or nothing can wake the processor, and otherwise is one step |
| `ArmCpu.BatchIsSteps` | src/arm32/mod.rs:507-604 | A batch is exactly `executed` single steps, none of them with a trap pending or idle; Completed means all were done, HostTrapped is equivalent to a pending trap, Idle means halted with no unmasked interrupt |
| `ArmCpu.Cpu.Write32` | src/arm32/mod.rs:693-712 | A stamped word store writes memory as the plain machine does and keeps every remaining cache hit equal to a fresh decode |
| `ArmCpu.Cpu.HostWrite` | src/arm32/icache.rs:143-148 | A host write followed by invalidation is just the write |
| `ArmCpu.Cpu.ExecDp` | src/arm32/execute.rs:210-316 | Data processing on the banked file is that of the flat store: flags, SPSR return forms, destination and cycles |
| `ArmCpu.Cpu.ExecLdm` | src/arm32/execute.rs:569-620 | The load loop over the banked file, user-bank and return forms included, is the plain machine's block load |
| `ArmCpu.Cpu.ExecStm` | src/arm32/execute.rs:621-653 | The stamped store loop is the plain machine's block store, base value rules included |
| `ArmCpu.Cpu.Raise` | src/arm32/mod.rs:482-501 | Exception entry through mode switch, SPSR and banked LR is entry on the flat store |
| `ArmCache.StampKeeps` | src/arm32/icache.rs:102-107 | Stamping one page on a store of one, two or four aligned bytes kills every entry the store could have changed, so all remaining hits still equal the decode of the new bytes |
| `ArmCache.FillKeeps` | src/arm32/icache.rs:128-139 | Installing a fresh decode under its key keeps every hit equal to a fresh decode |
| `ArmCache.InvalidKeeps` | src/arm32/icache.rs:109-112 | Right after invalidation no entry is live, so the cache agrees with any memory |
| `ArmCache.SharedSlot` | src/arm32/icache.rs:32-35 | Addresses the stamps can vouch for share a stamp slot whenever they share a cell |
| `ArmCache.VouchedExactly` | src/arm32/icache.rs:32-35 | They are exactly the addresses of which that can be said: any other shares its cell with one of them in another slot |
| `ArmCache.MirrorGoesStale` | src/arm32/icache.rs:17-21 | Below 64 MiB a store at the address equal to the RAM size changes the bytes of address 0 and leaves its stale entry a hit |
| `ArmStale.PlainRun` | src/arm32/mod.rs:507-669 | Below 64 MiB the plain machine, whose host points r2 at the mirror of address 0 and steps the store there twice, executes the new word the second time: three cycles |
| `ArmStale.StaleRun` | src/arm32/icache.rs:17-21 | The processor, from power-on and under the same host actions, executes the cached store again: four cycles |
| `ArmCpu.Cpu.Arrange` | src/arm32/mod.rs:482-501 | Injecting an exception and writing registers, mode or status on the banked file is the same on the flat store, and touches neither memory nor cache |
| `ArmMemory.MirrorsShareSlots` | src/arm32/mod.rs:129-136 | Addresses that share a RAM cell always share a write stamp if and only if the RAM size is a multiple of 64 MiB |
| `ArmMemory.WordReadBack` | src/arm32/mod.rs:147-175 | A word store is read back through exactly those aligned addresses that share its cell |
| `ArmMemory.LinearMemory.ReadWord` | src/arm32/mod.rs:147-155 | The one-slice fast read equals four wrapping byte reads |
| `ArmMemory.LinearMemory.WriteWord` | src/arm32/mod.rs:166-175 | The one-slice fast store equals four wrapping byte stores |
| `ArmRegisters.PsrRoundTrip` | src/arm32/registers.rs:125-141 | A status register and its 32 bits determine each other, reserved bits included |
| `ArmRegisters.PhysShared` | src/arm32/registers.rs:425-449 | Two modes see the same register exactly when they name the same number and share its bank |
| `ArmRegisters.SpillKeeps` | src/arm32/registers.rs:271-288 | Writing the outgoing mode's window back puts every banked register in its own storage and changes no physical register |
| `ArmRegisters.LoadKeeps` | src/arm32/registers.rs:289-302 | Loading the incoming mode's window from the banks changes no physical register |
| `ArmRegisters.Registers.SetMode` | src/arm32/registers.rs:271-302 | A mode switch changes the mode field and no physical register |
| `ArmRegisters.Registers.SetRegOf` | src/arm32/registers.rs:395-424 | Writing any mode's register from any mode changes that one physical register |
| `ArmRegisters.Registers.RegOf` | src/arm32/registers.rs:425-449 | Reading any mode's register from any mode gives that physical register |
| `ArmRegisters.Registers.SetUserReg` | src/arm32/registers.rs:382-394 | Writing a user-bank register changes that one physical register, whatever the mode |
| `ArmBanking.LastWriteWins` | src/arm32/registers.rs:395-449 | After any history of mode switches, MSRs and writes, a physical register holds the last value written to it |
| `ArmBanking.Untouched` | src/arm32/registers.rs:271-302 | A register that nothing writes keeps its value through any mode switches and MSRs, reserved modes included |
| `ArmBanking.Replay` | src/arm32/registers.rs:368-449 | The banked file serves any history as the flat store does, in every mode's view, and the user view is the view of User mode |
| `ArmLaws.EntryThenReturn` | src/arm32/mod.rs:482-501 | Entry followed by the architected return restores the raw CPSR, the PC and every mode's view except r14 and the SPSR of the exception mode |
| `ArmLaws.ReturnRestores` | src/arm32/execute.rs:272-307 | A handler that kept its mode, LR and SPSR returns to the interrupted CPSR and PC and leaves every other register as the handler left it |
| `ArmLaws.EntryState` | src/arm32/mod.rs:482-501 | What entry gives the handler: mode, masks, ARM state, saved CPSR, link value, vector, and nothing else changed |
| `ArmLaws.ReturnWords` | src/arm32/decode.rs:220-383 | The instruction words of the architected returns decode to the returns that these laws are about |
| `ArmLaws.BlockPairsUndo` | src/arm32/execute.rs:543-653 | STMDB/LDMIA, STMIA/LDMDB, STMIB/LDMDA and STMDA/LDMIB with write-back restore all listed registers and the base for any base value, and memory outside the block never changes |
| `ArmLaws.StoreListHolds` | src/arm32/execute.rs:621-653 | A block store leaves each listed register in its own word, wherever the block wraps, and the rest of memory alone |
| `ArmLaws.LoadListGets` | src/arm32/execute.rs:569-620 | A block load gives each listed register its own word and leaves the other registers alone |
| `ArmLaws.PairedAddresses` | src/arm32/execute.rs:543-566 | The complementary addressing mode, from the written-back base, starts at the same word and steps the base back |
| `ArmAlu.AddMeans` | src/arm32/alu.rs:71-78 | Carry is the 33rd bit of the sum and overflow means that the signed sum does not fit |
| `ArmAlu.SubMeans` | src/arm32/alu.rs:81-85 | Carry after a subtraction means no borrow, overflow that the signed difference does not fit |
| `ArmAlu.ImmediateIsRegister` | src/arm32/alu.rs:16-66 | An immediate shift encoding is the register shift it stands for, amount 0 meaning 32 |
| `ArmAlu.RightShiftsChain` | src/arm32/alu.rs:35-66 | One more place of a register LSR is one more one-bit shift, result and carry, through 32 and beyond |
| `ArmAlu.CountMulCycles` | src/arm32/alu.rs:89-99 | The early-out loop counts the bytes of the multiplier before all zeros, or all ones if signed |
| `PageTree.LeafStored` | src/os64/memory.rs:337-358 | Storing one leaf entry changes the walk of that page and of no other |
| `PageTree.LeafGrafted` | src/os64/memory.rs:341-349 | Hanging a fresh zero table into an empty slot changes no walk |
| `PageTree.Graft` | src/os64/memory.rs:341-349 | It also keeps the separation invariant, with the new table owned by its slot |
| `PageTree.DataWrite` | src/os64/memory.rs:400-412 | Writing inside a data frame alters no entry of any table |
| `PageViews.IndicesOfPage` | src/os64/memory.rs:294-301 | The four indices are the base-512 digits of the page number modulo 2^36, so addresses 2^48 apart share a walk |
| `PageViews.FramesDistinct` | src/os64/memory.rs:337-383 | No two mapped pages share a frame and none maps a table |
| `PageViews.ResolvedMeans` | src/os64/memory.rs:305-316 | `resolve` answers exactly for mapped pages, inside the frame that page owns |
| `AddressSpaces.AddressSpace.Resolve` | src/os64/memory.rs:305-316 | The walk loop answers what the recursive walk of the tree gives |
| `AddressSpaces.AddressSpace.SetPte` | src/os64/memory.rs:337-358 | Sets one page of the finite map and nothing else; all data stays, the cursor moves by at most three frames and not at all for a mapped page |
| `AddressSpaces.AddressSpace.MapRange` | src/os64/memory.rs:365-383 | Exactly the pages of the rounded range become mapped: old ones keep their frame and widen their permission, new ones get fresh zero frames; the cursor moves by at most four frames a page |
| `AddressSpaces.AddressSpace.Map` | src/os64/memory.rs:386-394 | The same seen by the guest (old bytes kept, new ones zero), the region recorded, coverage kept, and the free arena kept if the range is outside it |
| `AddressSpaces.AddressSpace.Protect` | src/os64/memory.rs:467-476 | Mapped pages of the range get exactly the requested permission, others are skipped, and every guest byte stays |
| `AddressSpaces.AddressSpace.Unmap` | src/os64/memory.rs:480-502 | Exactly the pages of the range disappear, other guest bytes stay, regions wholly inside are dropped and what is left stays covered |
| `GuestMemory.MapSeen` | src/os64/memory.rs:365-383 | After a map, guest bytes of old pages are unchanged, those of new pages are zero, all others stay absent |
| `GuestMemory.UnmapSeen` | src/os64/memory.rs:480-502 | After an unmap, guest bytes of the range are absent and all others unchanged |
| `GuestMemory.ProtectSeen` | src/os64/memory.rs:467-476 | Changing protection changes no guest byte |
| `Regions.MapsCommute` | src/os64/memory.rs:360-383 | Overlapping maps give every page the same permission in either order: the union |
| `AddressSpaces.AddressSpace.WriteBytes` | src/os64/memory.rs:400-412 | Never alters a table entry; succeeds iff every byte is present; sets exactly the bytes up to the first missing page, across pages and the 2^48 wrap |
| `AddressSpaces.AddressSpace.ReadBytes` | src/os64/memory.rs:416-428 | Fills the buffer with the guest's bytes up to the first missing page, succeeds iff there is none, and leaves the rest of the buffer |
| `AddressSpaces.AddressSpace.ReadCstr` | src/os64/memory.rs:432-443 | Finds every NUL-free string shorter than the bound; otherwise returns the first bytes up to the bound, or fails at a missing page before any NUL |
| `GuestMemory.ChunkSeen` | src/os64/memory.rs:406-409 | Storing a chunk in the frame of one page changes the guest bytes of that span alone, because no other page shares the frame |
| `GuestMemory.WrittenIsRead` | src/os64/memory.rs:400-428 | A complete write followed by a complete read of the same length gives the data back |
| `GuestMemory.CopyLeavesRest` | src/os64/memory.rs:400-412 | A write leaves every guest byte outside its range alone, even one that wraps |
| `GuestMemory.OneString` | src/os64/memory.rs:432-443 | At most one NUL-free string starts at an address |
| `AddressSpaces.AddressSpace.Mmap` | src/os64/memory.rs:448-457 | Fails exactly when the arena would reach the stack limit; otherwise the range is past every earlier claim and, if nothing else was mapped into the arena, all its pages are new and read as zero |
| `AddressSpaces.AddressSpace.MmapFixed` | src/os64/memory.rs:460-463 | Claims its range, moves the arena past it, and keeps the free part of the arena free |
| `AddressSpaces.AddressSpace.SetBrk` | src/os64/memory.rs:513-524 | Moves the break only between its base and the arena, maps exactly the new heap pages, zeroed, and keeps the arena free |
| `AddressSpaces.AddressSpace.GrowStack` | src/os64/memory.rs:539-554 | Maps down to the page and moves the first stack region's start; a fault classified as growth finds its page mapped and its address inside the region, above the stack limit |
| `ProcessRuns.HandleFault` | src/os64/mod.rs:200-205 | Classification and growth together: handled exactly for faults just below the stack region, and then the access can restart |
| `ProcessRuns.ClaimsNeverOverlap` | src/os64/memory.rs:448-463 | Over any sequence of requests, each range `mmap` hands out is aligned, in the arena, and disjoint from all earlier `mmap` and `mmap_fixed` ranges |
| `ProcessRuns.Run` | src/os64/memory.rs:386-554 | Over any run every present page lies in some region and the claims are those of the bookkeeping; while images keep out of the arena, what `mmap` will return next is unmapped |
| `Regions.CoveredAddresses` | src/os64/memory.rs:244-251 | With regions below 2^48, coverage says each present page address lies inside a region |
| `StackBuilder.BuildStack` | src/os64/process.rs:30-109 | The base is 16-byte aligned; argc, both vectors with their NULLs and the auxiliary pairs are there word for word, every string is behind its pointer, all strings lie above the block, and nothing outside is touched |
| `StackBuilder.SpawnStack` | src/os64/mod.rs:94-118 | From an address space with frames to spare for the initial stack, mapping it and building it always succeeds for strings that fit; coverage and the free arena are kept |
| `StackBuilder.BuildAndRead` | src/os64/process.rs:30-109 | Reading the finished stack through the guest gives back argc, every argument and environment string, both NULLs and the auxiliary vector up to AT_NULL |
| `StackBuilder.PushAll` | src/os64/process.rs:19-27 | Pushing strings one below the other leaves the earlier ones intact |
| `X86Division.FaultIffHighHalfReaches` | src/x86/div.rs:56-67 | The initial compare fails exactly when the divisor is zero or the quotient does not fit |
| `X86Division.Cpu.Cord` | src/x86/div.rs:50-98 | At any width, CORD faults exactly then, and otherwise returns the complemented quotient, the remainder and the signed range check; all six flags are determined |
| `X86Division.CordSigned` | src/x86/div.rs:129-161 | CORD on the magnitudes with the sign fix-up is a signed division, negated under REP |
| `X86Division.SignedDivisionEquation` | src/x86/div.rs:102-161 | A signed division that does not fault satisfies dividend = quotient * divisor + remainder, remainder smaller than the divisor and of the dividend's sign |
| `X86Division.TruncatesUnique` | src/x86/div.rs:129-161 | That equation has one solution, so the answer is the truncated quotient and its remainder |
| `X86Division.Cpu.NegateOperands` | src/x86/div.rs:102-127 | NEGATE gives the magnitudes of a negative dividend and of the divisor and tracks the sign of the quotient |
| `X86Division.Cpu.PostIdiv` | src/x86/div.rs:137-161 | The fix-up faults exactly on CORD's range check and applies both signs |
| `X86Division.Cpu.Div8` | src/x86/div.rs:178-202 | DIV and IDIV r/m8: right answer or fault, registers untouched on a fault, all flags |
| `X86Division.Cpu.Div16` | src/x86/div.rs:204-230 | DIV and IDIV r/m16 likewise |
| `X86Division.Cpu.Aam` | src/x86/div.rs:232-247 | AAM splits AL into quotient and remainder for every nonzero base and fails on zero only |
| `I386Division.LossyExact` | src/x86_32/alu.rs:659-680 | The lossy restoring loop is exact whenever the true quotient fits the width and the divisor's magnitude is at most 2^(W-1) |
| `I386Division.IdivExact` | src/x86_32/alu.rs:414-527 | IDIV succeeds with the exact truncated quotient and remainder whenever the quotient fits the signed width |
| `I386Division.GenerationsAgree` | src/x86_32/alu.rs:414-527 | Where the 8086 divider succeeds without REP, the 386 gives the same two words |
| `I386Division.MinimumQuotientDiffers` | src/x86_32/alu.rs:425-432 | Among in-range quotients the two differ on -2^(W-1) only, which the 8086 refuses |
| `I386Division.OverflowEscapes` | src/x86_32/alu.rs:654-658 | The range condition is needed: a dividend whose quotient does not fit, yet no fault is raised |
| `I386Division.IdivLossy` | src/x86_32/alu.rs:659-680 | The in-place loop computes the restoring division that these laws are about |
| `I386Division.Cpu.Idiv8` | src/x86_32/alu.rs:414-441 | IDIV r/m8 on EAX: AL and AH get quotient and remainder, the upper half stays, nothing changes on a fault, in-range quotients never fault |
| `I386Division.Cpu.Idiv16` | src/x86_32/alu.rs:459-484 | IDIV r/m16 on DX:AX likewise |
| `I386Division.Cpu.Idiv32` | src/x86_32/alu.rs:502-527 | IDIV r/m32 on EDX:EAX likewise |
| `X86Shifts.ShlLoopClosed` | src/x86/alu.rs:138-152 | n one-bit left shifts are one multiplication by 2^n cut to the width, with the carry the bit above it |
| `X86Shifts.ShlCarry` | src/x86_32/alu.rs:140-162 | The last bit shifted out is bit W-n of the operand, 0 beyond the width |
| `X86Shifts.ShrLoopClosed` | src/x86/alu.rs:154-168 | n one-bit right shifts are one quotient, with carry and overflow in closed form |
| `X86Shifts.SarLoopClosed` | src/x86/alu.rs:170-182 | n arithmetic shifts are one flooring quotient of the signed operand |
| `X86Shifts.RolLoopClosed` | src/x86/alu.rs:184-196 | n one-bit rotates are one rotate by n modulo the width |
| `X86Shifts.RorLoopClosed` | src/x86/alu.rs:198-208 | The same to the right |
| `X86Shifts.RorUndoesRol` | src/x86/alu.rs:184-208 | The two one-bit rotates undo each other |
| `X86Shifts.ShlAgreement` | src/x86_32/alu.rs:140-162 | The barrel carry differs from the loop's exactly when the count is a multiple of the width above it and the low bit is set |
| `X86Shifts.Alu386.Shl` | src/x86_32/alu.rs:140-162 | Result and all flags equal the 8086 loop for the masked count, but for CF and the OF derived from it in that case |
| `X86Shifts.Alu386.Shr` | src/x86_32/alu.rs:164-184 | Result and all flags equal the loop, but for CF when the count is such a multiple and the sign bit is set |
| `X86Shifts.Alu386.Sar` | src/x86_32/alu.rs:186-199 | Result and all flags equal the loop |
| `X86Shifts.Alu386.Rol` | src/x86_32/alu.rs:201-213 | Result and all flags equal the loop |
| `X86Shifts.Alu386.Ror` | src/x86_32/alu.rs:215-226 | Result and all flags equal the loop |
| `X86Shifts.Alu8086.Shl` | src/x86/alu.rs:138-152 | The in-place one-bit loop leaves the iterated result and flags |
| `I386Equivalence.SetKindSays` | src/x86_32/decode.rs:219-231 | The packed kind reads back what was set and setting it changes no other field |
| `I386Equivalence.SetSegSays` | src/x86_32/decode.rs:241-249 | The same for the segment |
| `I386Equivalence.SetScaleSays` | src/x86_32/decode.rs:251-259 | The same for the scale |
| `I386Equivalence.Ea16Agrees` | src/x86_32/decode.rs:664-693 | Masking the full-width sum of the packed formula is the 16-bit address arithmetic of the resolver |
| `I386Equivalence.SibAgrees` | src/x86_32/decode.rs:723-754 | The SIB formula, scaled-base quirk rewritten as an index and displacement-only base included, sums to the resolver's address |
| `I386Equivalence.ModRmAgrees` | src/x86_32/decode.rs:645-660 | For every byte stream, address size, override and register file, decoding ModRM and evaluating the formula is resolving it: same bytes, same faults, same operand |
| `I386Decoupled.EveryOpcode` | src/x86_32/decode.rs:323-628 | For every opcode that decodes hot, executing the decoded form is the fused handler |
| `I386Decoupled.DecodeRewinds` | src/x86_32/decode.rs:291-319 | A cold or failed decode leaves EIP, the length count and everything else at the post-opcode position; a cold two-byte opcode has consumed its second byte only |
| `I386Decoupled.DecoupledIsFused` | src/x86_32/decode.rs:842-1273 | Decode and execute gives the same registers, flags, memory, EIP, length and cycles as the fused interpreter, and on a fault the same fault with the same registers, flags and memory |
| `I386Decoupled.StepsAgree` | src/x86_32/mod.rs:861-887 | After the fault epilogue nothing tells the two paths apart |
| `I386Decoupled.HotCarriesContext` | src/x86_32/decode.rs:757-772 | A hot instruction carries the sizes, override, prefix count and length it was decoded under, so a cached one can restore them |
| `I386Independence.LengthGivesEip` | src/x86_32/decode.rs:757-772 | After a hot decode EIP is the start of the instruction plus the recorded length, and nothing else but the length count has moved |
| `I386Independence.DecodeReadsBytesOnly` | src/x86_32/decode.rs:291-628 | The decode depends on the instruction's own bytes and the prefix state alone: not on registers, flags, the rest of memory or the address |
| `I386Independence.DecodedOnceRunsAnywhere` | src/x86_32/decode.rs:842-1273 | An instruction decoded once executes as the fused interpreter would wherever its bytes stand again, with any registers, flags and other memory |
| `I386Cached.ExecutionCounted` | src/x86_32/decode.rs:835-842 | Executing a decoded instruction reads neither the length count nor any prefix state but the operand size, so what a hit leaves stale does not matter |
| `I386Cached.FreshAgain` | src/x86_32/decode.rs:773-812 | Scanning and decoding again over the bytes a cached instruction came from finds the same instruction |
| `I386Cached.HitIsStep` | src/x86_32/mod.rs:962-986 | Restoring and executing a cached instruction is one step of the direct interpreter: same registers, flags, memory, EIP and cycles, or the same fault |
| `I386Steps.OneStepAgrees` | src/x86_32/mod.rs:952-1035 | With any prefixes and any opcode, one instruction through the decoder is one through the interpreter |
| `I386Steps.RunsAgree` | src/x86_32/mod.rs:861-1035 | So is a run of any length, through hot and cold instructions, delivered faults and whatever comes between instructions |
| `I386Cpu.Cpu.ScanPrefixes` | src/x86_32/mod.rs:923-949 | The prefix loop sets sizes, override, LOCK and REP as the recursive scan says and stops at the length limit |
| `I386Cpu.Cpu.TryDecode` | src/x86_32/decode.rs:291-319 | The decoder in place, with its rewind, is the decode function, and cold means nothing has changed |
| `I386Cpu.Cpu.ExecDecoded` | src/x86_32/decode.rs:842-1273 | The executor in place does what the direct dispatch does from any state that decodes to this instruction and this position |
| `I386Cpu.Cpu.ExecHit` | src/x86_32/decode.rs:757-772 | Installing the operand size, override and EIP of a cached instruction in place and executing it is the hit that the laws are about |
| `I386Cpu.Cpu.ExecOne` | src/x86_32/mod.rs:952-1035 | With the cache in front, by hit or by miss and fill, one instruction in place is one step of the direct interpreter, and every entry stays a decode of the bytes it was made from |
| `I386Cpu.Cpu.Run` | src/x86_32/mod.rs:861-1035 | A run in place, whatever the cache holds and fills, through cold instructions, faults and interrupts, ends in the state and cycles of the direct interpreter's run |
| `I386Rep.StringUnit.StringOp` | src/x86_32/execute.rs:1646-1676 | An entry either finishes the whole repetition, faults where it would, or yields at the prefix with a strictly smaller nonzero count and the rest of the repetition still to do |
| `I386Rep.StringUnit.Resume` | src/x86_32/execute.rs:1646-1676 | Under any interrupts, re-entering until EIP is past the instruction gives the registers, flags and memory of one uninterrupted execution, in at most count + 1 entries |
| `I386Rep.WholeAtEip` | src/x86_32/execute.rs:1664-1673 | Rewinding EIP commutes with the whole repetition |

## Left out

- The two-level address space of `src/os/memory.rs`: the same shape one level count lower, so it would add only easy members; the tree lemmas are generic in the number of levels.
- Typed bus accessors of the 64-bit `PhysMem` (16- and 32-bit reads and writes), `/proc/self/maps`, system calls, the file system, ELF loading and the rest of the process layer.
- RCL, RCR and the other arithmetic of the x86 ALUs; the 386's unsigned division and AAM; multiplication, which the 386 interpreters take as an arbitrary function; BCD adjustments; the 6502 core; the x86-64 core.
- 386 quotients out of range: the divider is deliberately lossy there and nothing is claimed beyond the one example.
- What 386 opcodes outside the hot subset do, LOCK and REP forms, segment loads, gates, paging, the TLB and the delivery of a fault through the IDT: arbitrary functions of the state on both paths. The clock and page stamps of the 386 cache are represented by what a hit promises; the ARM cache, which works the same way, is modelled in full. The JIT is not part of this model.
- String operations without REP and the INS and OUTS primitives; the interrupt line is an arbitrary function of the iteration.
- 386 segment limits and translation are inside the arbitrary memory functions; the packed instruction is passed by value where the source fills it through a reference.
- The ARM decoder yields a datatype per instruction form where the source packs operands into bytes. The source's Bus is modelled by its linear memory only. Performance counters and debug cross-checks are left out.
- Prefetch and data aborts on ARM come from the host, which injects them; the modelled memory raises none.
- ArmCpu.Drive: for a RAM that is not a multiple of 64 MiB the equality is conditional on the plain machine's history not straying, because the code is not coherent otherwise (`ArmStale.StaleRun`).
- AddressSpaces.AddressSpace.Unmap: partially unmapped regions keep their region, as in the source, so no region is claimed to be fully mapped.
- StackBuilder.BuildStack: demands that the pages from the base to the top of the stack are present, which `StackBuilder.SpawnStack` arranges as the process start-up does; the source ignores the result of its writes otherwise, and strings that do not fit are not covered.
- ProcessRuns.Run: stops serving when the frame cursor no longer fits an entry, which the source never checks.
