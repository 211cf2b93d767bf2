# SimRV: a verified model of the hard parts

SimRV is a RISC-V system simulator. Much of it is caches, queues and state machines that have to
agree with something simple: a TLB with a page walk, a data cache with flat memory, a bus with
executing requests in order, an undo stack with a copy of the machine. This project models those
parts in Dafny and proves the agreement, for all inputs and over whole runs.

| files | what they model |
|---|---|
| `Arith`, `Memory`, `Bits`, `Options` | shifts and masks as division and remainder, little-endian loads and stores, words as bit sequences |
| `PageTable`, `PageWalker` | the translation process of section 4.3.2 of the RISC-V Privileged Architecture, and the generic walk loop with its decoded-satp cache |
| `Tlb`, `TlbCoherence`, `CachelessHart`, `KeptTranslation`, `Translation` | the three TLBs and two software TLBs, when they are flushed, and the refinement to a hart without caches |
| `Fences` | what an edit of the page tables makes stale, and what SFENCE.VMA leaves of it |
| `DecodeCache`, `DecodedRuns` | the cache of decoded instructions, when a hit stands for a fetch, and whole runs of the hart with all its caches |
| `Predictor`, `Pipeline`, `PipelineRuns`, `InOrderPipeline` | the five-stage timing model and its branch predictors |
| `Bus`, `DataCache`, `DataPath`, `Router` | the bus queues, the write-through data cache, the load and store path over both, and the MMIO router |
| `Privileged`, `Interrupts`, `Plic` | trap entry and return, interrupt dispatch, the interrupt controller |
| `Reservation`, `ReservedRuns` | the LR/SC reservation on three execution paths, and LR/SC with widths and translation |
| `Rollback`, `BackstepWalks`, `InterleavedBacksteps` | stepping backwards, and what page walks leave behind |
| `Clmul` | carry-less multiplication |
| `TranslationLaws`, `AccessLaws`, `PrivilegedLaws`, `FlatMemoryLaws`, `BusLaws`, `PlicLaws`, `PredictorLaws`, `TimingLaws` | what the functions that the models share mean, in the numbers of the standard and of the device registers: causes, bit positions, offsets, exact cycle counts |
| `Witness`, `FenceWitness` | concrete guests on which the conditions of the general laws fail |

`dafny verify dfyconfig.toml` checks the whole project.

Components that change state in place are classes whose methods are proved equal to functions of
the old state; the laws are lemmas about those functions. A page is stale from an edit that takes a
settled translation of it away until a fence that covers it; the laws about caches are about the
other pages, and nothing else is asked of the guest. Integers are unbounded, so every
truncation of the original is written out. Shifts and masks are divisions and remainders by powers
of two, and an `or` of disjoint fields is a sum.

## Where the code and a promise differ

- The decode cache is looked up by pc alone, replaces fetch, translation and the decoder with its
  checks of FS and VS, and survives traps, returns and writes of FS and VS. A hit is the fresh fetch
  exactly when it fits (`DecodeCache.HitIsFetchIff`); the runs in which it does not are
  `DecodedRuns.StaleAfterSret`, `DecodedRuns.StaleAfterMret`, `DecodedRuns.StaleAfterSwitchOff` and,
  concretely, `Witness.DecodedAcrossReturn` and `Witness.DecodedAcrossSwitchOff`.
- In the normal mode a decoded load or store does not enter the pipeline context
  (src/core/Cpu.cpp:974-983), yet the general path reads the kind of the access from it
  (src/memory/MemoryAccess.cpp:36-49 and 304-311). After an LR or AMO a misaligned plain access
  faults. The exact condition is that of `Translation.Hart.CachedAccess`; the run is
  `Witness.LoadAfterAmo`.
- The TLB caches superpages as 4 KiB pages, and SFENCE.VMA with an address drops one of them
  (src/core/Tlb.cpp:28-49), where section 4.2.1 lets software that modified a leaf fence with any one
  address in its page. The other 4 KiB pages of the superpage keep their old translation:
  `Fences.InvalidateAndFence` says exactly when everything is right after the fence,
  `FenceWitness.SuperpageAfterFence` gives the run.
- The pre-decoded fast path (src/core/Cpu.cpp:767-888) looks the software TLB up without the
  canonical-address check of the general path, and the tag keeps 40 bits of the page number. It is
  right exactly for canonical addresses: `Translation.Hart.FastTarget`, `Witness.AliasHit`.
- Interrupt dispatch uses one mask and one order for both destinations; section 3.1.9 puts
  interrupts for M-mode before those for S-mode. The exact condition under which the two agree is
  `Interrupts.ChoiceIsStandardIff`, with the witness `Interrupts.ChoiceDiffersFromStandard`.
- The LR reservation records a virtual address, no width and no mapping. A successful SC stays within
  the bytes its LR read, under the mapping of the LR, exactly when it is not wider
  (`ReservedRuns.ScWithinLrIff`); the runs in which it does not are `Witness.ScStoresElsewhere` and
  `Witness.ScWiderThanLr`.
- `save_state` of the timing pipeline leaves out the issue counter. Order survives a restore
  (`PipelineRuns.RestoreKeepsInv`); that every issued number is in exactly one place survives exactly
  when nothing was issued since (`PipelineRuns.ConservationSurvivesIff`).
- `step_instruction` returns a `uint32_t`. The counts add up exactly when no call spends 2^32 cycles
  (`PipelineRuns.ReturnedAddUpIff`), which a `div_latency` of 0 makes happen
  (`PipelineRuns.CountWraps`) and, with penalties that leave room, nothing else
  (`PipelineRuns.CountsAddUpIff`).
- A failed trap-return round trip of the pc is possible only for a pc that is not IALIGN-aligned:
  `Privileged.TrapThenReturn` states both directions.
- A/D-bit writes of page walks are not recorded by the undo stack. A backstep restores memory exactly
  when no walk it steps over set a bit that the instruction's own stores do not take back:
  `InterleavedBacksteps.RestoredIffSpared`, `BackstepWalks.TakenBackIff`,
  `BackstepWalks.RestoredIffSettled`, `Witness.BackstepKeepsAD`.

## Model

| member | source | states |
|---|---|---|
| DecodedRuns.DecodingHart.RunAll | src/core/Cpu.cpp:178-226 | In every run of staged and decoded fetches, loads and stores of both paths, satp, mstatus and sstatus writes, traps, returns, SFENCE.VMA and FENCE.I, edits of live page tables included, in which no page is translated between an edit of its translation and a fence that covers it and whose decoded accesses and decode-cache hits fit, the hart with its TLBs, software TLBs and decode cache produces step by step the instructions, physical addresses and faults of the hart that fetches, decodes and walks afresh, and leaves the same memory |
| DecodeCache.HitIsFetchIff | src/pipeline/PipelineStages.cpp:318-401 | A decode-cache hit is the fresh fetch and decode, in the instruction, the addresses and the memory it leaves, if and only if it fits: memory still holds the instruction inserted, FS or VS is on where it needs them, and translation is off, or the privilege is that of the insertion, or one of the two is M and the page is mapped to itself and accessed; between S and U under translation never |
| DecodeCache.TableStaysSound | src/core/Cpu.cpp:58-70 | Whatever step is taken, page-table edits included, every entry of a page that is not stale is still where a fetch at the privilege of its insertion finds it, because satp, status and SFENCE.VMA changes that could move it empty the cache; writes of FS and VS do not |
| DecodedRuns.DecodingHart.FetchDecoded | src/core/Cpu.cpp:180-209 | The fetch of the fast modes: a miss is the staged fetch and decode, FS and VS checks included, and fills one entry; a hit returns the entry and changes nothing, and is right exactly when it fits |
| DecodeCache.DecodeFaults | src/pipeline/PipelineStages.cpp:318-401 | Which fetched instructions execute and which are illegal, by legality, FS and VS, and what a fault reports |
| DecodeCache.EvictsIff | include/simrv/core/DecodeCache.hpp:47-80 | A miss that executes takes the place of the instruction at another pc if and only if bits 12 to 1 of the two agree |
| DecodedRuns.StaleAfterSret | src/core/StateControl.cpp:347-374 | For every such guest: S-mode executes a page and returns to U-mode at the same pc, the decode cache still hits on the supervisor instruction, and a fetch faults with cause 12 |
| DecodedRuns.StaleAfterMret | src/core/StateControl.cpp:315-345 | For every such guest: M-mode code at a physical pc, then MRET to a level that does not map that pc to itself or has not accessed the page yet, and the hit differs from a fetch in its addresses or in the memory it leaves |
| DecodedRuns.StaleAfterSwitchOff | src/core/CsrFile.cpp:65-79 | For every such guest: a floating-point or vector instruction is executed, sstatus is written with FS or VS off, and control comes back to its pc; the write empties no cache, the hit executes, and a fetch reports illegal instruction (cause 2) |
| Witness.DecodedAcrossReturn | src/core/Cpu.cpp:183-209 | The concrete run of the first kind on the model's objects: 0x8000_1000 twice, and a fault from a fetch |
| Witness.DecodedAcrossSwitchOff | src/pipeline/PipelineStages.cpp:357-377 | The concrete run of the last kind: FADD.S executes twice, the second time with FS off, and faults only once FENCE.I has emptied the cache |
| Translation.Hart.RunAll | src/memory/MemoryAccess.cpp:77-290 | The same for the translation caches alone: in runs of staged and decoded accesses, CSR writes, traps, returns and SFENCE.VMA that may edit the page tables, no stale TLB or software-TLB entry is seen when every page is fenced, by address or otherwise, before its next use, and the decoded accesses fit |
| Translation.Hart.AccessAny | src/memory/MemoryAccess.cpp:27-116 | One load or store of any alignment, page-crossing split and AMO alignment faults included, equals the cacheless access in result and in memory |
| AccessLaws.MprvSet | include/simrv/core/Cpu.hpp:561-566 | With MPRV set a load or store, page-crossing or not, has the outcome and leaves the memory of the same access at level MPP with MPRV clear |
| AccessLaws.MprvClear | include/simrv/core/Cpu.hpp:561-566 | With MPRV clear it does not depend on MPP |
| AccessLaws.FetchIgnoresMprv | src/pipeline/PipelineStages.cpp:40-80 | A fetch depends on neither |
| AccessLaws.WithinPage | src/memory/MemoryAccess.cpp:77-290 | With MPRV clear an access within a page goes where translation at the current level under satp, SUM and MXR says, a store changes its bytes of DRAM and nothing else, and a fault reports the address |
| AccessLaws.Misaligned | src/memory/MemoryAccess.cpp:36-49 | A misaligned LR is cause 4, a misaligned AMO or SC cause 6, before any memory is touched |
| AccessLaws.FaultReports | src/memory/MemoryAccess.cpp:27-93 | Every other fault of a load is 13 or 5, of a store 15 or 7, and reports the address of the whole access even when a later byte faults; an LR or AMO read at a non-canonical address reports 15 |
| AccessLaws.CrossingUntranslated | src/memory/MemoryAccess.cpp:312-323 | Without translation a page-crossing access inside DRAM reaches consecutive bytes, and a store leaves the whole word there |
| Translation.Hart.AccessThroughTlb | src/memory/MemoryAccess.cpp:238-290 | TLB hit, or walk, insertion and software-TLB fill: on a page that is not stale the answer and memory of a fresh walk, on any page what the entry present says, and every cache stays sound |
| Translation.Hart.SoftLookup | src/memory/MemoryAccess.cpp:95-116 | A software-TLB hit for a canonical address is what a fresh walk would yield now, and writes no A or D bit |
| Translation.Hart.Fetch | src/pipeline/PipelineStages.cpp:73-151 | A fetch with one or two halfword translations, both lookups made before either walk, equals the cacheless fetch, misaligned pc and second-page faults included |
| AccessLaws.FetchFaults | src/pipeline/PipelineStages.cpp:40-60 | A pc misaligned for the extensions is cause 0; any other fault is 12 or 1 and reports the pc, or the address of the second half on the next page |
| AccessLaws.FetchTranslated | src/pipeline/PipelineStages.cpp:60-151 | Which addresses are translated, at which level, and what a refused first or second half reports |
| AccessLaws.FetchUntranslated | src/pipeline/PipelineStages.cpp:396-420 | In M-mode or without translation the halves lie at the pc, reduced to XLEN bits |
| Translation.Hart.FastTarget | src/core/Cpu.cpp:767-888 | The pre-decoded fast path, which does not check that the address is canonical: a hit gives the fresh walk's answer if and only if the address is canonical or translation is off |
| Translation.Hart.CachedAccess | src/memory/MemoryAccess.cpp:27-50 | The decoded load or store, whose general path takes its kind from the instruction the pipeline context still holds, is the fresh plain access if and only if: misaligned, the context holds no LR or AMO; aligned, the address is canonical or untranslated, or the lookup misses and the context does not rename the fault of a load |
| Witness.LoadAfterAmo | src/core/Cpu.cpp:890-909 | The concrete failure: an AMO, then a decoded LH at an odd address reports a misaligned store (cause 6), where a plain LH reads the two bytes |
| AccessLaws.ContextIsLastKind | src/pipeline/PipelineStages.cpp:466-479 | After any run the context holds the kind of the last instruction that was staged or decoded |
| TlbCoherence.TagAliases | include/simrv/core/Cpu.hpp:183-192 | Under Sv39 the non-canonical 0x10_0000_0000_1000 has the software-TLB tag of 0x1000 |
| Witness.AliasHit | src/core/Cpu.cpp:767-816 | The concrete failure of the fast path: after a load from 0x1000 it takes 0x10_0000_0000_1000 to the same byte, where the general load raises a page fault |
| TlbCoherence.TagInjective | include/simrv/core/Cpu.hpp:183-192 | Canonical addresses under one satp have equal tags only on the same page at the same privilege, although the tag keeps 40 bits of page number |
| Translation.Hart.SoftTlbFlush | src/core/Cpu.cpp:72-82 | After any flush, the one that wraps the 32-bit epoch included, no entry of either table can match |
| TlbCoherence.StaleIsSound | src/core/Cpu.cpp:72-82 | Tables whose entries are all dead are sound for every satp, mstatus and memory |
| Translation.Hart.TlbFlushSelective | src/core/Cpu.cpp:66-70 | From any state, stale entries present: SFENCE.VMA removes exactly the selected entries of all three TLBs and every software-TLB entry, and afterwards every entry is right if and only if each entry not selected was |
| Translation.Hart.SfenceVma | src/pipeline/PipelineStages.cpp:1117-1122 | The fence within a run: the pages it covers are no longer stale, a fence by address takes away that one 4 KiB page, and every cache agrees with memory on all others |
| AccessLaws.FencesClear | src/core/Tlb.cpp:23-64 | Which pages SFENCE.VMA makes fresh again, by its operands and the current ASID |
| AccessLaws.SatpClears | src/core/CsrFile.cpp:481-489 | A new satp of mode 0, 8 or 9 makes every page fresh again, any other write of satp none |
| AccessLaws.StatusClears | src/core/CsrFile.cpp:65-72 | A status write does so exactly when it changes MPRV, SUM or MXR, or MPP while MPRV is set |
| Translation.Hart.RightIsValid | src/core/Cpu.cpp:66-82 | When every entry left is right the invariant of the runs holds again with no page stale |
| Fences.SurvivesIff | src/memory/Mmu.cpp:198-237 | After a leaf entry is made invalid a settled translation is still what a walk finds if and only if its walk did not end at that entry |
| Fences.InvalidatedPages | src/memory/Mmu.cpp:198-275 | So the pages that become stale are exactly those with a settled translation through the entry |
| Fences.LeafCanBeCleared | src/memory/Mmu.cpp:198-237 | Writing zero over the leaf that translates any page is such an edit |
| Fences.SuperpageStaysStale | src/core/Tlb.cpp:28-49 | When the entry maps a superpage, every other page of it is stale after the edit and still stale after a fence by the address of one page |
| Fences.InvalidateAndFence | src/core/Tlb.cpp:23-64 | The guest clears a leaf and fences, with any operands: every cache is right afterwards if and only if no cached entry the fence does not select was found through that leaf |
| FenceWitness.SuperpageAfterFence | src/core/Tlb.cpp:28-49 | The concrete run: S-mode loads from 0x2000, clears the gigapage leaf, fences 0x1000 and loads again: the TLB still answers, and only a fence of all addresses makes the load fault |
| Translation.Hart.SetMstatus | src/core/CsrFile.cpp:32-79 | The flush decision is enough: after the WARL write every cache agrees with the new SUM, MXR and privilege |
| Translation.Hart.WriteSatp | src/core/CsrFile.cpp:481-489 | A supported satp value is stored, and when it differs no TLB and no software-TLB entry is left that can answer; an unsupported one changes nothing |
| Tlb.TlbTable.FlushSelective | src/core/Tlb.cpp:23-64 | Exactly the entries matching address and ASID are gone and all others untouched, on each of the four operand combinations |
| Tlb.TlbTable.Lookup | include/simrv/core/Tlb.hpp:94-106 | A hit exactly when a matching entry is in the table; LRU points at the other way; nothing else changes |
| Tlb.TlbTable.Insert | include/simrv/core/Tlb.hpp:116-128 | The new mapping replaces the way the LRU bit names, the bit moves to the other way, and every other slot and bit is unchanged |
| PageWalker.Mmu.Translate | src/memory/Mmu.cpp:31-73 | Translation with the cached satp decode equals the recursive process of section 4.3.2 for Sv32, Sv39 and Sv48, for every satp value and cache state, memory write included |
| TranslationLaws.EntryDecides | src/memory/Mmu.cpp:198-275 | For Sv32, Sv39 and Sv48 by their literal sizes: once pointers have led to a table, the fields of its entry decide, with literal causes: access fault outside DRAM, page fault for a malformed entry, a forbidden access or a misaligned superpage, and else the page frame with the page offset, A set in memory and D too by a store |
| TranslationLaws.DeniedCauses | src/memory/Mmu.cpp:42-64 | A refused fetch, load or store has cause 12 or 1, 13 or 5, 15 or 7, and it is the access fault if and only if the walk reads an entry outside DRAM |
| TranslationLaws.NoWalk | src/memory/Mmu.cpp:31-50 | M-mode and a bare satp translate nothing; a reserved satp mode and a non-canonical address are page faults 12, 13 and 15; memory is untouched |
| TranslationLaws.CanonicalIff | include/simrv/memory/Mmu.hpp:93-112 | An address is canonical exactly when it is the sign extension of its low 39 or 48 bits |
| TranslationLaws.WordOfEntry | include/simrv/memory/Mmu.hpp:19-27 | Every entry word is the word of the fields the walker reads from it, bit by bit |
| TranslationLaws.EntryOfWord | include/simrv/memory/Mmu.hpp:19-27 | Every record of fields is read back from its word |
| TranslationLaws.SatpFields64 | include/simrv/xlen/Constants.hpp:55-120 | MODE, ASID and PPN composed into an RV64 satp select the scheme, the address space and the root |
| TranslationLaws.SatpFields32 | include/simrv/xlen/Constants.hpp:55-120 | The same for RV32 |
| PageWalker.Mmu.FindLeaf | src/memory/Mmu.cpp:198-237 | The level loop finds the leaf of the recursive walk, or fails with its fault, reading only entries inside DRAM |
| PageWalker.Mmu.DecodeSatp | src/memory/Mmu.cpp:153-182 | The decoded-satp cache always describes the satp in use, or is invalid |
| PageWalker.ValidateIsPermitted | src/memory/Mmu.cpp:75-108 | The permission bit arithmetic decides exactly the access rules of section 4.3.1: reserved encodings, U, SUM, MXR and the R, W, X bits |
| PageWalker.MaskedAddress | src/memory/Mmu.cpp:266-269 | The mask expression is the leaf's page number with the virtual page offset of that level |
| PageTable.TranslationInvisible | src/memory/Mmu.cpp:110-125 | The A and D writes of one translation change no translation under any satp of the same entry size, whatever its root: same address or fault for every address, access and mode |
| PageTable.WalkAllSettled | src/memory/Mmu.cpp:271-273 | A series of walks leaves memory as it was if and only if each of them, done first, would: no walk takes back what another wrote |
| PageTable.TranslateTwice | src/memory/Mmu.cpp:198-275 | Repeating a translation gives the same answer and writes nothing |
| PageTable.WalkSeesThroughAD | src/memory/Mmu.cpp:215-236 | A word with grown A and D bits is classified alike wherever a walk meets it, as leaf, pointer or fault: a leaf never becomes a non-leaf on any path |
| PageTable.TranslateWritesOnlyLeaf | src/memory/Mmu.cpp:24-29 | A translation changes bytes only of the leaf entry it found, which lies in DRAM |
| PageTable.LeafAddressOffset | src/memory/Mmu.cpp:258-274 | The physical address keeps the page or superpage offset of the virtual one |
| PageTable.OrdinaryStoreInvisible | src/memory/Mmu.cpp:198-275 | A memory change outside the words some walk reads changes no translation |
| PageTable.InvalidatedWalk | src/memory/Mmu.cpp:198-237 | Clearing V in a leaf entry makes exactly the walks that ended there fault and leaves every other walk as it was |
| CachelessHart.SafeStoreChangesNothing | src/memory/Mmu.cpp:198-275 | A store that misses every word some walk reads makes no page stale |
| InOrderPipeline.InOrderPipeline.StepInstruction | src/pipeline/InOrderPipeline.cpp:402-457 | The issue loop terminates from every state for every configuration, never overwrites a busy F, and returns the cycles that passed modulo 2^32; the new state is the specification's |
| InOrderPipeline.InOrderPipeline.TickPipeline | src/pipeline/InOrderPipeline.cpp:356-400 | One tick in place equals `Pipeline.Tick` |
| InOrderPipeline.InOrderPipeline.ResolveBranchesEx | src/pipeline/InOrderPipeline.cpp:251-279 | Resolution in E: penalty, flush of F and D, and predictor update as specified |
| TimingLaws.ResolutionFlushes | src/pipeline/InOrderPipeline.cpp:251-279 | A transfer resolved in E with a wrong direction or without its target leaves F and D empty and exactly the mispredict penalty owed, one bubble for a JAL, none otherwise |
| TimingLaws.TransferTiming | src/pipeline/InOrderPipeline.cpp:356-457 | From an idle pipeline the call that comes after the resolution takes exactly that many cycles more, charged to control |
| TimingLaws.FetchMissTiming | src/pipeline/InOrderPipeline.cpp:402-457 | After an instruction TLB or cache miss the next call takes the longer of the two penalties more, charged to the TLB if it missed and else to the cache |
| TimingLaws.DivideTiming | src/pipeline/InOrderPipeline.cpp:82-107 | A divide: the second call after it takes exactly `div_latency` cycles, charged to the unit |
| TimingLaws.DependenceTiming | src/pipeline/InOrderPipeline.cpp:109-143 | A dependent instruction right behind a load, multiplication or ALU operation waits exactly 0, 1 or 2 cycles, by latency and forwarding paths |
| TimingLaws.DataMissTiming | src/pipeline/InOrderPipeline.cpp:303-354 | A data miss: the third call after it takes exactly the penalty more, charged to the data cache |
| Pipeline.TickDrops | src/pipeline/InOrderPipeline.cpp:356-457 | Every tick of the issue loop lowers the lexicographic measure: unresolved control transfers, stage distance, countdowns |
| PipelineRuns.CyclesAddUp | src/pipeline/InOrderPipeline.cpp:281-301 | Over any program the cycle counter grows by the ticks spent and the stall counter is exactly the sum of its six categories |
| PipelineRuns.ReturnedAddUpIff | src/pipeline/InOrderPipeline.cpp:402-457 | The returned uint32_t counts add up to the growth of the cycle counter if and only if no single call spends 2^32 ticks; otherwise they fall short |
| PipelineRuns.CheapCallIsExact | src/pipeline/InOrderPipeline.cpp:402-457 | A bound computed from the pipeline state before the call: when what its instructions may cost is below 2^32 - 1, the returned count is exact |
| Pipeline.TickPays | src/pipeline/InOrderPipeline.cpp:356-400 | Every tick of the issue loop lowers that cost by at least one, flushes, divides and misses included |
| PipelineRuns.CountWraps | src/pipeline/InOrderPipeline.cpp:82-95 | The concrete failure: with `div_latency` 0 the third instruction after reset spends 2^32 cycles and the call returns 0 |
| PipelineRuns.CountsAddUpIff | src/pipeline/InOrderPipeline.cpp:82-107 | From the configuration alone: with penalties and latencies that leave room in 32 bits, the counts of every program from reset add up to the cycle counter if and only if `div_latency` is not 0 |
| PipelineRuns.CallWithinBound | src/pipeline/InOrderPipeline.cpp:402-457 | From any state whose counters are within their penalties, as every state of a run is, one call spends at most a bound computed from the configuration |
| PipelineRuns.ReachableOrdered | src/pipeline/InOrderPipeline.cpp:315-400 | In every reachable state issue numbers obey F > D > E > M > W, retirement is in increasing order, and F and D are empty while bubbles are owed |
| PipelineRuns.ExactlyOnePlace | src/pipeline/InOrderPipeline.cpp:315-457 | In every reachable state each issued number is in exactly one place, a stage register, retired, or flushed, and no other number is anywhere |
| PipelineRuns.ProgramOrderedAndConserved | src/pipeline/InOrderPipeline.cpp:402-457 | The same two facts for whole programs fed through `step_instruction` from reset |
| PipelineRuns.FlushIsByOlder | src/pipeline/InOrderPipeline.cpp:251-279 | Whatever a flush removes was issued after the control transfer in E that causes it |
| PipelineRuns.EntersWithSourcesReady | src/pipeline/InOrderPipeline.cpp:109-143 | An instruction enters E only when each writer of its sources in E or M has finished and is forwarded; bubble ticks, which skip the checks, are covered |
| PipelineRuns.DivideResidency | src/pipeline/InOrderPipeline.cpp:82-107 | A divide stays in E for at least `div_latency` ticks, whatever else is issued |
| PipelineRuns.RestoreKeepsInv | src/pipeline/InOrderPipeline.cpp:536-590 | A restored snapshot, which does not hold the issue counter, still satisfies the order invariant |
| PipelineRuns.RestoreLosesNumbers | src/pipeline/InOrderPipeline.cpp:559-590 | After a restore the numbers issued since the snapshot are in no place at all, and every earlier one is in exactly one |
| PipelineRuns.ConservationSurvivesIff | src/pipeline/InOrderPipeline.cpp:536-590 | Every issued number being in exactly one place survives a restore if and only if nothing was issued since the snapshot |
| InOrderPipeline.InOrderPipeline.RunAndTakeBack | src/pipeline/InOrderPipeline.cpp:536-590 | Saving, running any program and restoring leaves every register, counter, statistic and predictor table as it was, and only the issue counter moved |
| Predictor.EntryIsCounter | src/pipeline/InOrderPipeline.cpp:145-249 | In any run of branches and jumps, whatever they share, each history-table entry is wrong exactly as often as one counter fed the outcomes that reach it |
| Predictor.TwoBitTableBound | src/pipeline/InOrderPipeline.cpp:171-249 | In any such run, bimodal or gshare, a two-bit entry is wrong at most twice per maximal run of equal outcomes it sees |
| Predictor.OneBitTableBound | src/pipeline/InOrderPipeline.cpp:171-249 | A one-bit entry at most once |
| Predictor.AlwaysTakenCost | src/pipeline/InOrderPipeline.cpp:171-249 | With a BTB, a branch always taken to one target costs at most two penalties in a whole run, whatever other branches and jumps run in between on other entries |
| Predictor.ResolveBranch | src/pipeline/InOrderPipeline.cpp:171-249 | Counters stay in 0..3 and every valid BTB entry sits at the index of its own pc |
| PredictorLaws.PaidIsMispredicted | src/pipeline/InOrderPipeline.cpp:145-213 | Over any run of branches and jumps the penalties paid sum to the mispredict penalty times the wrong directions plus the rightly predicted taken branches and JALRs without their target, plus one for every JAL without it |
| PredictorLaws.WrongIsSumOfEntries | src/pipeline/InOrderPipeline.cpp:171-249 | The wrong directions of a run are those of its table entries added up |
| PredictorLaws.TwoBitRemembers | src/pipeline/InOrderPipeline.cpp:217-231 | A two-bit counter, whatever came before: two equal outcomes make it predict them, and after three it withstands one opposite outcome but not two |
| PredictorLaws.OneBitRemembers | src/pipeline/InOrderPipeline.cpp:215-217 | A one-bit counter predicts the last outcome |
| PredictorLaws.AtReset | src/pipeline/InOrderPipeline.cpp:171-199 | What each kind of predictor predicts at reset, and that the target buffer is empty |
| PredictorLaws.EntryIsTrained | src/pipeline/InOrderPipeline.cpp:145-249 | In any run each entry holds the counter trained with the outcomes it saw |
| PredictorLaws.BimodalEntry | src/pipeline/InOrderPipeline.cpp:182-189 | Bimodal predictors select their entry by bits 8 to 1 of the pc |
| PredictorLaws.GshareEntry | src/pipeline/InOrderPipeline.cpp:190-193 | Gshare selects it by the exclusive or of those bits with the history, bit by bit |
| PredictorLaws.HistoryIsOutcomes | src/pipeline/InOrderPipeline.cpp:234-237 | The gshare history after any run is the number its last branch outcomes form, the latest in bit 0, as many as it has bits |
| PredictorLaws.BufferHoldsLast | src/pipeline/InOrderPipeline.cpp:239-246 | After any run an entry of the target buffer holds the last jump or taken branch that maps to it |
| DataPath.MemoryPath.RunAll | src/memory/MemoryAccess.cpp:187-236 | Any sequence of DRAM loads and stores of any width, extension and alignment, with cache flushes among them, returns the values of one flat byte memory and leaves that memory |
| FlatMemoryLaws.LoadIsInteger | include/simrv/memory/MemoryUtil.hpp:117-141 | LB, LH and LW return the 64-bit integer that the 8-, 16- or 32-bit word in memory is in two's complement; LBU, LHU and LWU the unsigned word, LD the doubleword |
| FlatMemoryLaws.StoreWritesBytes | include/simrv/memory/MemoryUtil.hpp:143-163 | SB, SH, SW and SD write the 1, 2, 4 or 8 low bytes of the register, least significant first, and no other byte |
| FlatMemoryLaws.WordBytes | include/simrv/memory/MemoryUtil.hpp:117-141 | Each byte of a word is the byte at its offset |
| DataPath.MemoryPath.TargetRead | src/memory/MemoryAccess.cpp:50-75 | A page-crossing load assembled from byte loads is the flat load, extension included |
| DataPath.MemoryPath.TargetWrite | src/memory/MemoryAccess.cpp:312-323 | A page-crossing store split into byte stores is the flat store |
| DataPath.MemoryPath.IssueRead | src/memory/MemoryAccess.cpp:187-236 | Line-crossing bypass, hit, and fill over the bus all return the flat load and keep the cache a mirror of memory |
| DataPath.MemoryPath.FillLine | src/memory/MemoryAccess.cpp:206-226 | The bus reads deliver exactly the line's bytes |
| DataPath.MemoryPath.IssueWrite | src/memory/MemoryAccess.cpp:384-388 | Write-through leaves memory stored and the cache a mirror of it |
| DataCache.DCache.Read | src/cache/DCache.cpp:14-52 | A hit exactly when the line is held and not left by the access, with memory's value; hit and miss counters account for every read |
| DataCache.DCache.Write | src/cache/DCache.cpp:54-97 | In-line update, or invalidation of both lines of a line-crossing store, keeps every valid line equal to memory |
| DataCache.DCache.Insert | include/simrv/cache/BaseCache.hpp:44-81 | The victim is an empty way or the least recently used one, and no other line changes |
| DataCache.StoreInLine | src/cache/DCache.cpp:58-72 | Updating the copy and updating memory give equal bytes |
| Memory.LoadAfterStore | include/simrv/memory/MemoryUtil.hpp:96-160 | Reading back a stored word gives it truncated to its width |
| Memory.StoreExtend | src/memory/MemoryAccess.cpp:313-316 | Storing byte by byte from the lowest on is storing the word |
| Bus.BusIsSequential | src/memory/TileLinkBus.cpp:25-119 | For any interleaving of sends and receives of any sources, each source gets the answers to its own requests in its own send order, one per request, and answers and memory are those of executing all requests in send order |
| Bus.NextReceive | src/memory/TileLinkBus.cpp:104-119 | After any such run, a receive fails exactly when its source has had all its answers, and otherwise yields the answer to its oldest open request |
| Bus.RunRefines | src/memory/TileLinkBus.cpp:25-119 | The queued bus cannot be told from one that carries out each request when it is sent |
| Bus.ServeFailsIff | src/memory/TileLinkBus.cpp:104-119 | A receive fails exactly when nothing of its source is queued or answered |
| Bus.GetAfterPut | src/memory/TileLinkBus.cpp:53-87 | A word written over the bus reads back over it truncated and sign-extended |
| Bus.TileLinkBus.GetResponse | src/memory/TileLinkBus.cpp:104-119 | The receive loop terminates and is the specification's `Serve` |
| Bus.TileLinkBus.TickOnce | src/memory/TileLinkBus.cpp:30-102 | One tick carries out the oldest request: size and opcode errors, DRAM, tohost words, devices, and the no-device error |
| BusLaws.GetFromDram | src/memory/TileLinkBus.cpp:53-62 | A read inside DRAM answers with the sign-extended word of 1, 2, 4 or 8 bytes and changes nothing |
| BusLaws.PutToDram | src/memory/TileLinkBus.cpp:62-87 | A write inside DRAM stores that many bytes and acknowledges; it reaches tohost exactly for 4 or 8 bytes at the three addresses |
| BusLaws.Refused | src/memory/TileLinkBus.cpp:50-53 | A request longer than 8 bytes, or neither read nor write, is an error and does nothing |
| BusLaws.OutsideDram | src/memory/TileLinkBus.cpp:88-99 | Outside DRAM the owning device answers, given a full mask if there was none; without a device the answer is an error with data 0 and no device changes |
| Router.MmioRouter.Play | src/memory/MmioRouter.cpp:15-99 | Any sequence of registrations, removals and lookups answers like a plain set of devices in which no address has two owners |
| Router.MmioRouter.RegisterDevice | src/memory/MmioRouter.cpp:15-59 | A device is accepted exactly when its range is representable and it is already there or shares no owned address with a registered one; the list stays sorted and disjoint |
| Router.MmioRouter.UnregisterDevice | src/memory/MmioRouter.cpp:61-71 | Exactly the given device is removed, if present |
| Router.MmioRouter.ResolveDevice | src/memory/MmioRouter.cpp:75-99 | Binary search with the linear fallback returns the one owner, or nothing exactly when there is none |
| Router.OrderIrrelevant | src/memory/MmioRouter.cpp:75-99 | Two routers holding the same devices cannot resolve an address differently |
| Privileged.TrapThenReturn | src/core/StateControl.cpp:466-518 | A trap and its matching return restore privilege and the interrupt enables, the pc exactly when it was IALIGN-aligned, and everything else up to the listed fields |
| Privileged.NestedTrapThenReturn | src/core/StateControl.cpp:315-374 | Any number of M-level traps and MRETs inside an S-level handler leave the pending SRET unwind intact |
| Privileged.TrapStaysLegal | src/core/StateControl.cpp:466-518 | Trap entry never lowers privilege and keeps unimplemented fields and levels out of the state |
| Privileged.StatusWriteStaysLegal | src/core/CsrFile.cpp:32-79 | mstatus and sstatus writes of any value keep the state legal, and sstatus cannot change MPP |
| Privileged.ArchState.Raise | src/core/StateControl.cpp:466-535 | Trap entry in place equals its specification |
| PrivilegedLaws.TrapEntry | src/core/StateControl.cpp:462-523 | The level a trap enters, what that level records, and what stays, field by field |
| PrivilegedLaws.TrapTarget | src/core/StateControl.cpp:491-517 | The new pc is the largest multiple of 4 not above the xtvec of the level entered, for every exception and in direct mode, and 4 times the code further, modulo 2^64, for an interrupt in vectored mode |
| Privileged.ArchState.MachineReturn | src/core/StateControl.cpp:315-345 | MRET in place equals its specification |
| Privileged.ArchState.SupervisorReturn | src/core/StateControl.cpp:347-374 | SRET in place equals its specification |
| PrivilegedLaws.MachineReturns | src/core/StateControl.cpp:315-345 | MRET field by field; the pc is the largest multiple of the instruction alignment not above mepc |
| PrivilegedLaws.SupervisorReturns | src/core/StateControl.cpp:347-374 | The same for SRET |
| PrivilegedLaws.MstatusWrite | src/core/CsrFile.cpp:32-79 | Which fields an mstatus write stores, by the extensions of the hart, and the level an illegal MPP falls back to |
| PrivilegedLaws.SstatusWrite | src/core/CsrFile.cpp:501-503 | An sstatus write reaches SIE, SPIE, SPP, SUM, MXR, FS and VS and nothing that belongs to M-mode |
| PrivilegedLaws.WriteBack | src/core/CsrFile.cpp:32-79 | Writing back what was read changes nothing, through either register |
| Interrupts.TakenIffAllowed | src/core/Cpu.cpp:942-967 | An interrupt is in the mask exactly when section 3.1.9 allows it for its destination, which is one level only |
| Interrupts.SelectedIsFirst | include/simrv/Define.hpp:108-118 | The selected interrupt is in the mask and precedes all others there in the fixed order |
| PrivilegedLaws.SelectedInterrupt | include/simrv/Define.hpp:108-118 | The order by interrupt numbers: 11, 3, 7, 9, 1, 5, then the highest |
| Interrupts.DestinationMatchesRule | src/core/Cpu.cpp:942-973 | The trap enters the level whose enable rule admitted the interrupt, records it there, leaves the other level's registers alone and never lowers privilege |
| Interrupts.ChoiceIsStandardIff | src/core/Cpu.cpp:942-973 | The choice is section 3.1.9's, M-level interrupts first, if and only if no eligible delegated interrupt outranks every eligible undelegated one |
| Interrupts.ChoiceDiffersFromStandard | src/core/Cpu.cpp:942-973 | The concrete disagreement: SEI delegated, SEI and STI eligible in U-mode, SEI is taken where the standard takes STI |
| Interrupts.DispatchCopiesAgree | src/pipeline/PipelineStages.cpp:1137-1191 | With no exception and an aligned next pc, a commit stage and the cached path reach the same state |
| Interrupts.CommitControlFlow | src/pipeline/PipelineStages.cpp:1137-1191 | The pipeline's commit-stage dispatch in place equals its specification: pending exception, misaligned target, then interrupt at the new pc |
| PrivilegedLaws.CommitTakes | src/pipeline/PipelineStages.cpp:1137-1191 | What the end of an instruction records: a pending exception its code and value, a misaligned target cause 0 and the target, both at the instruction; an interrupt value 0 at the new pc |
| Interrupts.CommitBareMetal | src/pipeline/PipelineStages.cpp:1238-1293 | The bare-metal copy, with its own body, equals the same specification |
| Interrupts.DispatchPendingInterrupts | src/core/Cpu.cpp:942-973 | The cached path's dispatch in place equals its specification |
| Plic.PlicMmio.ClaimFor | src/core/StateControl.cpp:137-162 | A claim returns the lowest-numbered source of maximal priority among those pending, enabled and above the threshold, non-zero exactly when the context's line was asserted, and clears only that pending bit |
| Plic.PlicMmio.UpdateMip | src/core/StateControl.cpp:32-75 | MEIP and the external part of SEIP are set exactly when a claim by that context would return a source |
| Plic.PlicMmio.SetIrq | src/core/StateControl.cpp:77-86 | One pending bit changes, none for sources outside 1..31, and the lines stay right |
| Plic.PlicMmio.MmioRead | src/core/StateControl.cpp:111-165 | Only a claim has a side effect; other reads return the stored registers; offset 0, source 0 of the enables and unmapped offsets read zero |
| Plic.PlicMmio.MmioWrite | src/core/StateControl.cpp:167-206 | Each register write, completions with re-raise included, changes what it names and leaves the lines right |
| PlicLaws.PriorityMap | src/core/StateControl.cpp:167-171 | Offset 4 * i is the priority of source i, that of source 0 read-only |
| PlicLaws.EnableMap | src/core/StateControl.cpp:172-177 | Enable words of the M-mode context at 0x2000, of the S-mode context at 0x2080; source 0 cannot be enabled |
| PlicLaws.ThresholdMap | src/core/StateControl.cpp:105-109 | Thresholds at 0x20_0000 and 0x20_1000 |
| PlicLaws.ClaimMap | src/core/StateControl.cpp:137-162 | Reading 0x20_0004 or 0x20_1004 claims for its context; no other read changes anything |
| PlicLaws.CompleteMap | src/core/StateControl.cpp:183-203 | Writing the recorded source there completes it and makes a device that still asks pending again; any other value is ignored |
| PlicLaws.NothingElse | src/core/StateControl.cpp:167-206 | Writes to the pending words and to any other offset change nothing |
| PlicLaws.LineMap | src/core/StateControl.cpp:77-86 | An interrupt line sets or clears the pending bit of its source, 1 to 31 |
| PlicLaws.ClaimMeans | src/core/StateControl.cpp:137-162 | The claim rule in terms of pending and enabled bits, priorities and threshold |
| PlicLaws.LinesMean | src/core/StateControl.cpp:32-75 | MEIP and SEIP in the same terms, in every state of the controller |
| Plic.PlicMmio.Play | src/core/StateControl.cpp:32-206 | In any run every claim gets the answer the claim rule prescribes, and each source is claimed, by both contexts together, at most as often as it was raised; a completion raises only the source its context has claimed, when the device still asks |
| Plic.ClaimUnique | src/core/StateControl.cpp:137-162 | The claim rule has one answer |
| Plic.BestDecides | src/core/StateControl.cpp:42-66 | The scan with its strict comparisons decides both the line and the claim, priority zero and ties included |
| Reservation.Cpu.RunTrace | src/pipeline/PipelineStages.cpp:979-1026 | In every run on all three execution paths an SC stores and writes 0 if and only if it is aligned, does not fault, its most recent LR was to the same address, and no store, FP store, AMO, SC, trap, MRET or SRET came between |
| Reservation.PairSeesSameMemory | src/pipeline/PipelineStages.cpp:999-1026 | Between such an LR and SC no scalar store has changed memory |
| Reservation.ScIffPaired | src/pipeline/PipelineStages.cpp:702-725 | The same equivalence for any sequence of states a run goes through |
| Reservation.FlagMeansLive | src/core/Cpu.cpp:478-481 | The flag and the address register say exactly which LR still holds |
| Reservation.Cpu.StepInstruction | src/core/Cpu.cpp:598-603 | One instruction on the staged, bare-metal or cached path: what becomes of memory, of the reservation and of an SC |
| Reservation.Cpu.MemoryStageStaged | src/pipeline/PipelineStages.cpp:950-1027 | The staged memory phases keep the shared promise, faulting loads and partial stores included |
| Reservation.Cpu.MemoryStageBareMetal | src/core/Cpu.cpp:417-604 | The bare-metal copy keeps the same promise although it checks for an exception only once |
| Reservation.Cpu.CachedAccess | src/core/Cpu.cpp:890-929 | The cached load and store keep it too |
| Reservation.WidthIsNotChecked | src/pipeline/PipelineStages.cpp:713-715 | After an LR of any width an aligned SC of any other width at its address succeeds |
| ReservedRuns.ScWithinLrIff | src/pipeline/PipelineStages.cpp:979-1018 | In every run with widths and translation: an SC that stores under the satp space and data privilege of its LR does so at the address the LR read, and within the bytes it read if and only if it is not wider |
| ReservedRuns.RecordIsLastLr | src/pipeline/PipelineStages.cpp:979-982 | While the reservation is up, the width, address and mapping compared are those of the last LR that read |
| ReservedRuns.OnlyCsrWritesRemap | src/core/CsrFile.cpp:481-489 | Between the two only a satp or status write can change the mapping |
| Witness.ScStoresElsewhere | src/pipeline/PipelineStages.cpp:702-725 | The concrete run LR.D, satp write, SC.D: the SC succeeds and stores a word the LR never read |
| Witness.SelfMapExists | src/memory/Mmu.cpp:198-237 | The memory of that run, a root table that is also its own second and third level, exists |
| Witness.ScWiderThanLr | src/pipeline/PipelineStages.cpp:713-715 | The concrete run LR.W, SC.D: the SC succeeds and writes bytes the LR did not read |
| Rollback.BackstepsRestore | src/core/Cpu.cpp:1272-1324 | After any n steps with any overlapping stores, k backsteps (k at most min(n, 1024)) restore memory, architectural state, timers and counters of k steps ago, and the next backstep succeeds exactly when k is below that bound |
| Rollback.RunTracks | src/core/Cpu.cpp:1272-1324 | Over any interleaving of steps and backsteps the undo stack answers and restores like a machine that keeps whole copies |
| Rollback.ReplayUndoes | src/core/Cpu.cpp:1303-1306 | Writing the recorded old values back in reverse order undoes any series of overlapping stores of width 1, 2, 4 and 8 |
| Rollback.UndoOne | src/core/Cpu.cpp:1290-1295 | The sign-extended old value, written back at its width, undoes one store |
| Rollback.Cpu.Execute | src/core/Cpu.cpp:1272-1295 | Snapshot, recording and stores in place equal the specified step, the limit of 1024 included |
| Rollback.Cpu.PerformBackstep | src/core/Cpu.cpp:1297-1324 | The backstep in place equals its specification and answers false exactly on an empty stack |
| BackstepWalks.TakenBackIff | src/memory/Mmu.cpp:110-125 | Taking back a translated store restores memory if and only if the leaf's A and D bits were already set, that is, its walk wrote nothing |
| BackstepWalks.RestoredIffSettled | src/core/Cpu.cpp:1290-1306 | An instruction with any walks and any overlapping stores after them: the backstep restores memory if and only if none of the walks had a bit to set |
| InterleavedBacksteps.RestoredIffSpared | src/core/Cpu.cpp:1290-1306 | Walks and overlapping stores in any order: the backstep restores memory if and only if no walk changes a byte before the first of the instruction's own stores to it |
| InterleavedBacksteps.CrossingStoreRestoredIff | src/memory/MemoryAccess.cpp:312-323 | The page-crossing store, with a walk, a record and a write for each byte, trapping at any of them: the events are what the hart does to memory, and the same exact condition holds |
| PageTable.TranslateRaisesBytes | src/memory/Mmu.cpp:110-125 | The write-back of a walk makes no byte of memory smaller |
| Witness.BackstepKeepsAD | src/core/Cpu.cpp:1303-1306 | The concrete failure: a store through a page with A and D clear, taken back, does not restore memory |
| Clmul.CarrylessMultiply | src/execute/ExecuteUnitB.cpp:188-196 | CLMUL is the low half of the GF(2) product, for every word length |
| Clmul.CarrylessMultiplyHigh | src/execute/ExecuteUnitB.cpp:197-205 | CLMULH is the high half |
| Clmul.CarrylessMultiplyReversed | src/execute/ExecuteUnitB.cpp:206-214 | CLMULR is the product shifted right by one less than the word length, truncated |
| Clmul.ReversedIsReversal | src/execute/ExecuteUnitB.cpp:119-126 | CLMULR is the bit-reversed CLMUL of the bit-reversed operands |
| Clmul.ProductCommutes | src/execute/ExecuteUnitB.cpp:103-126 | The product the loops compute is commutative |
| Clmul.ProductDistributes | src/execute/ExecuteUnitB.cpp:103-126 | It distributes over xor |
| Clmul.ProductByMonomial | src/execute/ExecuteUnitB.cpp:103-126 | Multiplying by x^i is a shift by i; with the two laws above this fixes the product on all operands |

## Left out

- User interface, logging, tracing, framebuffer, audio, input, GDB and lockstep processes, ELF loading and the command line: input and output only.
- Floating point and vector execution: the first rests on the host, the bodies of the second are in separate headers; vector stores are not part of the LR/SC runs.
- Decoder and compressed-instruction expansion: finite encoding tables.
- VirtIO, UART and console devices: behind `Bus.Setting` they are one abstract function from a request to an answer; the interrupt levels they report on PLIC completion are a parameter of `MmioWrite`.
- The instruction word at a pc is a parameter of the decoded fetch, with its length, its legality under the fixed extensions and what it needs of FS and VS; a word changed without a FENCE.I is one that differs from the entry's. The flushes of the decode cache by disk transfers and SBI are not part of the decoded runs.
- The execution modes that copy every cached instruction into the pipeline context (TUI, lockstep, GDB, branch and system-call traces): in the runs they are a `Decode(Plain)` before each decoded access.
- BackstepWalks.RestoredIffSettled: the walks of the instruction come before its stores; the other orders are those of `InterleavedBacksteps`.
- Fences.InvalidateAndFence: the edit makes a leaf invalid; other edits are covered by the stale pages of the runs, without a condition on the entries.
- SBI calls: only traps that SBI does not intercept are modelled.
- Dynamic SXL and UXL changes: the active XLEN is a constant of each run, 32 or 64.
- `perform_backstep`, DMA, debugger writes and program loading inside the translation and data-cache runs: they write memory around those caches.
- A/D-bit writes inside the data-cache runs: translation is off there.
- Data values inside the translation runs: a load's outcome there is the physical address it reaches, and values are the subject of `DataPath`. `target_read` and `target_write` share one method in `Translation`, with the access kind as a parameter.
- tohost writes and the framebuffer window in `Translation` and `DataPath`: outside plain DRAM accesses.
- Device accesses through `DataPath`: the runs are about DRAM, at addresses where the whole access lies in DRAM.
- DataCache.DCache.Insert: the eviction statistics kept for display are not modelled, only the replacement counter.
- Router.MmioRouter.RegisterDevice: the list is re-sorted by insertion after equal bases, where the original uses an unstable sort; no contract depends on the position among equal bases.
- `MmioRouter::route_request` checks of alignment and read-only devices: part of the abstract device function of `Bus`.
- Bus and MMIO transfer counters, pipeline cycle history and the duplicate bubble statistic: display only.
- Wrap-around of the 64-bit cycle, instruction and LRU tick counters: they are unbounded here. The 32-bit counts are not.
- Plic.PlicMmio.MmioRead: pending words 1 to 31 are constant zero, as nothing ever writes them; upper halves of enable words are kept although no source uses them.
- Reservation.Cpu.StepInstruction: the lockstep co-simulation override of SC and LR/SC by vector code are not modelled.
- Rollback.Cpu.PerformBackstep: the pipeline snapshot is part of the abstract architectural state, and the software-TLB flush at the end is the one of `Translation`.
- Clmul.CarrylessMultiply: the sign extension of the 32-bit results into 64-bit registers is not modelled.
