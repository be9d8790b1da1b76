# Cache coherence and pin-link verification

This project models and proves the protocol and hardware logic of a small multi-core system: private direct-mapped MSI
caches, a directory with a sharer bitmask, one word memory, and, for each core, a clocked cache controller over a
byte-serial SRAM and a serial pin link to the directory. `dafny verify dfyconfig.toml` checks all of it.

Two descriptions of the same system exist in the repository and both are modelled: a Python emulation of whole
transactions (`cocotb/emulation`) and the SystemVerilog of one chip (`src`).

## How the model is built

**The emulated system.** `CacheLine` has one line and what a cache does to it; `Directory` has the directory transactions
on the whole system (any number of caches, a map of entries, a map of memory words); `Steps` has the processor requests,
with a tag-mismatch eviction as a step of its own so that other cores may run between it and the fill. `Emulation` holds
the objects as classes whose methods update their fields; each method is proved to take the system to the state the
functions give, so the theorems about the functions are theorems about the classes. `Coherence`, `FlatMemory` and `Runs`
prove them for whole requests; `AnyState` says what each
transaction does from any state at all, its recovery branches included. A hit waits for the other cores before it stores or reads; `HitRuns` splits it there.

**The chip.** `Sram` has one-edge functions of the data memory, the tag memory, their join and the two-port lock;
`Controller` those of the two machines; `Outbound` that of the arbiter. `SramRtl`, `ControllerRtl`,
`Outbound.OutboundArbiter`, `LinkRtl` and `InitGate.ResetGate` are the clocked objects: registers are fields, SRAM macros
are arrays, and each `Posedge` is proved to take the object to the state the one-edge function gives. The proof then goes
up one level at a time:

1. the byte-serial stack simulates an atomic array of 128 cells (`PortedArray`, `StackRuns`);
2. the controller over the stack simulates the controller over the array (`Controller`);
3. every run of that controller is a sequence of atomic handler calls, one per finished job or snoop (`Transactions`,
   `Serialised`);
4. such a handler call is the emulated system's step (`HandlerSteps`);
5. the chip as it stands, controller, memory stack, pipes and serializers wired to the far end of the link, does in every
   run what the specification does (`Tile`, `TileRuns`, and `TileBoot` from reset);
6. any number of such chips, with a directory that serves one transaction at a time as the emulated one does, do to every
   cell what the emulated system does, and so are one flat memory (`CellLog`, `Fleet`, `TileFleet`).

Beside that chain: the latency bounds of snoops and of processor jobs (`SnoopProgress`, `CpuProgress`), the two overwriting
pipes and what keeps them from losing anything (`AckPipe` and `TileAcks`, `SnoopPipe` and `TileSnoops`), the chip's own wire
to the far end (`TileUplink`), power-up (`InitGate`). `TileRtl` wires the clocked controller to the clocked interface.

**The link.** `SerialLink` has the two serializers with the history of what was sent and received, `Packet` the packet
format and its routing, `PacketStream` whole streams of packets up the link, `Downlink` whole streams of messages down it
into the two pipes, `Wire` how words, addresses and commands stand on fields and codes. **The arbiter in front of the directory** is `RoundRobin`.

Words are four byte lanes, strobes four booleans; `Words` also has the 32-bit view in which the Python masking loop works.
Sharer masks are naturals with the bitwise operators defined on them (`Bitmask`). Cycle inputs (processor, link, directory)
are arbitrary unless a theorem says what it asks of them.

The transcriptions, which compute and promise nothing by themselves, are these: `Msi.OnProcessorEvent`
(cocotb/emulation/msi.py:147-217, src/cache_controller/on_processor_event_state_machine.sv:57-99), `Msi.OnSnoopEvent`
(msi.py:224-309, on_snoop_event_state_machine.sv:44-86), `Directory.Owner`, `BusRead`, `BusReadExclusive`, `BusUpgrade`,
`EvictedClean`, `EvictedDirty`, `Handle` (directory.py:26-51 and 167-524), `Steps.EvictStep`, `ReadFill`, `WriteFill`
(cache.py:136-260), `Sram.DataNext` (mem128x32.sv:102-209), `TagNext` (mem128x6.sv:92-186), `MemNext` (cache_mem.sv:41-94),
`StackNext` (two_port_cache_mem.sv:91-220), `Controller.CpuNext`, `CpuPort`, `CpuOut` (cache_controller.sv:535-941),
`SnpNext`, `SnpPort`, `SnpOut` (cache_controller.sv:393-533), `Outbound.ArbNext` (outbound_arbiter.sv:116-230),
`SerialLink.TxNext` (tserializer.sv:62-139), `RxNext` (rserializer.sv:56-105), `Packet.Build`, `RouteOf`, `Decode`
(cache_interface.sv:86-164), `LinkRtl.PipeNext` (lossy_pipe_stage.sv:35-57), `InitGate.GateNext` (chip_core.sv:82-109).

## Where the code departs from its intent

The model follows the code. Where the code's own comments say it means something else, both are modelled (`Steps.Variant`)
and the difference is stated exactly.

- **Late stores.** A write hit is decided, then waits at the arbiter until every core has arrived, then stores
  (cocotb/emulation/cache.py:254-255). A snoop that falls in the wait takes the line's state but not its store: the write
  lands on a SHARED or INVALID line and is lost, and if it lands on a SHARED one the copies no longer equal memory. Two cores
  and one word are enough, from the empty system: `HitRuns.WriteLost`. `HitRuns.LateStoreRefines` says exactly when a store
  does what it should, and `HitRuns.HitRace` exactly which schedules those are: no other core requests that address in
  between, or the merge changes nothing. Read hits have no such race: `HitRuns.ReadHitFrozen`.
- **Bus reads write memory.** A cache marks every directory request with strobe 0xF (cocotb/emulation/cache.py:98); the
  directory forwards that strobe on a bus read of an INVALID or SHARED entry (directory.py:179-199), and the memory writes
  on any non-zero strobe (memory.py:70-75). The comments call it a read. As written, the fetched word and the memory word
  become zero: a word written, evicted and read again is gone (`Runs.ReadErasesWord`).
- **Upgrades drop the held word.** After an upgrade the cache takes the reply's word (cache.py:247-250), which is zero
  (directory.py:391-399), where directory.py:360-366 means the cache to keep its own: one core writes, another reads and then
  writes one byte, and the other bytes are zero (`Runs.UpgradeZeroesLanes`).
- `FlatMemory.StepRefines` says exactly which steps meet the flat memory as written (`FlatMemory.Faithful`): a read that
  hits, finds an owner, or fetches a word that is zero anyway; a write that does not upgrade, or whose unstrobed lanes are
  zero. As intended every step does. States and sharers are right either way (`FlatMemory.StepCoherent`).
- **Refused evictions.** The tag-mismatch path invalidates the line whether or not the arbiter granted the eviction
  (cache.py:150-155): coherence survives if and only if there was nothing to evict (`Runs.RefusedEvict`).
- **Partial-word write misses in hardware.** Only the strobed lanes reach the SRAM (cache_controller.sv:807-818), so the
  other lanes keep the slot's stale bytes instead of the fetched ones: `Transactions.RtlMeetsHandler` gives the exact
  condition and `Transactions.PartialWriteMiss` an instance.
- **Requests during power-up.** A request that reaches the memory between the end of the tag clear (edge 129) and the end of
  the data clear (edge 513) is accepted by the tag memory alone and wedges the stack for good (`StackRuns.Boot`,
  `StackRuns.WedgedForever`). The reset gate counts edges only, so a snoop arriving in the first 512 edges does it
  (`InitGate.LeavesResetClean`, `InitGate.BootedClear`).
- The class comment of the emulated cache says fully associative (cache.py:40-45); the code is direct-mapped, and so is the
  model.
- Memory's range check accepts the address one past the end (memory.py:20-24); so does the model. Cache addresses alias
  beyond 2048 (`CacheLine.AddrSplit`), and the protocol theorems are about addresses below it.

## Model

| member | source | states |
|---|---|---|
| Words.ApplyWstrb | cocotb/emulation/util.py:22-28 | the masking loop on 32-bit words gives, lane by lane, the new byte where the strobe is set and the old byte elsewhere: the RTL's lane selection |
| Words.MergeBases | src/cache_controller/apply_wstrb.sv:12-15 | merging one word into two bases gives the same result if and only if the bases agree on every lane not strobed |
| Words.MergeTwice | src/cache_controller/apply_wstrb.sv:12-15 | merging in the controller and again by strobed bytes in the SRAM equals one merge, over the same base and over any stale one |
| Words.MergeCompose | cocotb/emulation/memory.py:51-58 | two successive strobed writes are one write under the union of the strobes |
| CacheLine.AddrSplit | cocotb/emulation/cache.py:65-75 | tag and index rebuild the address modulo 2048, so they determine it exactly below 2048 |
| CacheLine.SameSlotSameTag | cocotb/emulation/cache.py:132-134 | two addresses below 2048 with the same slot and tag are the same address, and conversely |
| CacheLine.HandsOver | cocotb/emulation/msi.py:224-309 | a line gives up its word only if it is MODIFIED, has the address's tag, and the snoop reads; in every other case the word is zero |
| CacheLine.LeavesLine | cocotb/emulation/msi.py:224-309 | a snooping read takes the right to write, a read-exclusive everything, an upgrade the read-only copies; other tags, and every tag and word, stay |
| CacheLine.AsksForWhatItLacks | cocotb/emulation/msi.py:147-217 | a line serves what its state allows, asks for just what it lacks, and has it after the fill |
| Msi.AfterAccess | cocotb/emulation/msi.py:147-217 | an access leaves the right it needed beside what was there, and never gives up a word |
| Msi.AfterSnoop | cocotb/emulation/msi.py:224-309 | no snoop makes the cache send a command of its own |
| Bitmask.OneBitTest | cocotb/emulation/directory.py:46-51 | the power-of-two test accepts exactly the one-bit masks, and the bit is the one below the bit length |
| Directory.OwnLineKept | cocotb/emulation/directory.py:123-164 | no transaction snoops its requester: all the requester's lines are untouched |
| Directory.HandleLocal | cocotb/emulation/directory.py:485-524 | a transaction changes caches only by snoops at its address, and writes only its own entry and memory word |
| Directory.SnoopsExactly | cocotb/emulation/directory.py:123-164 | a transaction does to every cache exactly what its one snoop of it does, and nothing where it sends none |
| AnyState.OwnerIsSole | cocotb/emulation/directory.py:46-51 | in any state the owner is the one sharer of a MODIFIED entry, and with none or several there is none |
| AnyState.AnyBusRead | cocotb/emulation/directory.py:167-251 | a bus read in any state, recovery included: always ready, SHARED with the requester added; with another owner on record its word goes to memory and is the reply, without one nobody is snooped |
| AnyState.AnyBusReadExclusive | cocotb/emulation/directory.py:254-348 | a read-exclusive in any state: refused, and nothing changed, exactly if the entry is MODIFIED with no other owner on record; otherwise the requester alone is on record and the others are snooped |
| AnyState.AnyBusUpgrade | cocotb/emulation/directory.py:350-405 | an upgrade in any state: of a SHARED entry the other copies go and the reply is zero; any other is a read-exclusive |
| AnyState.SharerLeaves | cocotb/emulation/directory.py:407-445 | in any state: a sharer leaves; an entry left with none is INVALID, a MODIFIED one left without a single owner SHARED |
| AnyState.AnyEviction | cocotb/emulation/directory.py:407-483 | an eviction in any state: only the core's sharing goes, and a dirty word to memory |
| AnyState.EachItsOwn | cocotb/emulation/directory.py:485-524 | each command does its own transaction |
| AnyState.SnoopsSlot | cocotb/emulation/cache.py:263-324 | a snoop of a cache is a snoop of the address's slot and of no other |
| AnyState.AnyEvictStep | cocotb/emulation/cache.py:136-155 | the eviction phase in any state, granted or refused: the message and its address, and the slot INVALID either way |
| AnyState.RefusedFill | cocotb/emulation/cache.py:187-206 | a refused fill leaves the cache's line and is answered not ready |
| AnyState.StoresIntoSlot | cocotb/emulation/cache.py:254-256 | a store goes into the slot lane by lane, whatever its tag and state |
| AnyState.WritesAnswerNothing | cocotb/emulation/cache.py:239-260 | a write is answered without a word |
| AnyState.MemoryWords | cocotb/emulation/memory.py:18-58 | memory is one word an address, up to 2048, zero before the first write |
| Coherence.SingleWriter | cocotb/emulation/msi.py:25-28 | under the invariant: a MODIFIED copy is the only copy; the entry is INVALID iff nobody holds the address, SHARED iff some do and all read-only, MODIFIED iff someone may write, and the owner test names that cache |
| Coherence.HandleFrame | cocotb/emulation/directory.py:485-524 | a transaction on one address leaves everything the system knows about every other address as it was |
| Coherence.BusReadView | cocotb/emulation/directory.py:167-251 | after a bus read every holder is SHARED, the requester is a sharer, memory holds the owner's word if there was one, and the reply is that word, or what the forwarded strobe makes of the memory word |
| Coherence.BusReadExclusiveView | cocotb/emulation/directory.py:254-348 | after a read-exclusive nobody else holds the address, the requester is the recorded owner, memory and the reply have the current value |
| Coherence.BusUpgradeView | cocotb/emulation/directory.py:350-405 | an upgrade by a SHARED holder finds the entry SHARED, removes every other copy, keeps the holder's line and replies zero |
| FlatMemory.EvictedAddress | cocotb/emulation/cache.py:142-146 | the address rebuilt for an eviction is in range and is the only address the line can have been filled for |
| FlatMemory.EvictView | cocotb/emulation/cache.py:136-155 | a granted eviction removes the core from its victim's entry, leaves memory with the current value, and moves no other address |
| FlatMemory.EvictKeeps | cocotb/emulation/directory.py:407-483 | removing an evicting core keeps the directory exact and the value unchanged |
| FlatMemory.StepView | cocotb/emulation/cache.py:136-260 | the effect of any step on any address: at most the victim and the requested address move; every granted request is answered ready, and a read with the stated word |
| FlatMemory.StepCoherent | cocotb/emulation/cache.py:136-324 | every granted step keeps single-writer and the exact directory, as written and as intended |
| FlatMemory.StepRefines | cocotb/emulation/cache.py:157-260 | a step reads and writes one flat word memory if and only if it is as intended or meets the stated condition; then every shared copy still equals memory |
| Runs.InitConsistent | cocotb/emulation/cache.py:47-62 | the initial system satisfies the invariants and is the all-zero flat memory |
| Runs.RunRefines | cocotb/emulation/directory.py:167-483 | for any number of cores and any interleaving of evictions, fills, upgrades and hits whose store follows at once: every request is answered, every read returns the word last written, the final memory is the flat one, the invariants hold |
| HitRuns.RunRefines | cocotb/emulation/cache.py:157-260 | the same with other cores' steps between a hit's decision and its store, for every run whose stores are on time |
| HitRuns.ActRefines | cocotb/emulation/cache.py:252-257 | every single action, whole step, decision or store, does what the flat memory does if and only if it is on time |
| HitRuns.LateStoreRefines | cocotb/emulation/cache.py:254-255 | a late store does what the write should if and only if its line is still MODIFIED or the merge changes nothing; coherence survives it, and shared copies equal memory unless it changes a line that has become SHARED |
| HitRuns.HitRace | cocotb/emulation/cache.py:252-257 | a write hit does what it should if and only if no other core requests its address between decision and store, or the merge changes nothing |
| HitRuns.ReadHitFrozen | cocotb/emulation/cache.py:193-198 | a read hit returns after its wait the word the flat memory had at its decision, whatever the other cores did |
| HitRuns.OthersOnlyLower | cocotb/emulation/cache.py:263-324 | another core's step leaves the tag and word of every line of this one and never raises its state |
| HitRuns.HitAtOnce | cocotb/emulation/cache.py:252-257 | a hit stored at once is the whole request |
| HitRuns.WriteLost | cocotb/emulation/cache.py:254-255 | from the empty system, as written and as intended: one core rewrites a word it owns, another reads it in the wait; the flat word keeps its old value and the copies disagree with memory |
| Runs.IntendedRuns | cocotb/emulation/cache.py:136-260 | as intended, granting the evictions is the only thing a run needs for the refinement |
| Runs.RunCoherent | cocotb/emulation/directory.py:167-445 | coherence holds after every granted run of the code as written |
| Runs.TagCheckStays | cocotb/emulation/cache.py:136-155 | between a core's eviction and its fill no other core's step can undo its tag check |
| Runs.RequestAfterEvict | cocotb/emulation/cache.py:157-260 | once the tag check has passed, a whole request is its fill alone |
| Runs.FillNeverRecovers | cocotb/emulation/directory.py:346-348 | in a coherent state no request reaches a recovery branch: no read-exclusive by the owner, no upgrade off SHARED, no ghost snoop, no upgrade snoop of a MODIFIED line; the reply is ready |
| Runs.EvictNeverRecovers | cocotb/emulation/directory.py:425-445 | in a coherent state an eviction names the address its line holds and never leaves a MODIFIED entry without a single owner |
| Runs.RefusedEvict | cocotb/emulation/cache.py:150-155 | a refused eviction keeps coherence if and only if there was nothing to evict |
| Runs.ReadErasesWord | cocotb/emulation/directory.py:179-199 | as written, from the empty system: any non-zero word written, evicted and read again comes back as zero and is erased from memory |
| Runs.UpgradeZeroesLanes | cocotb/emulation/cache.py:247-250 | as written, from the empty system: one core writes a word, another reads it and writes one lane; its other lanes are lost, which as intended they are not |
| Emulation.MemoryController.Read | cocotb/emulation/memory.py:18-26 | returns the stored word up to address 2048, zero if never written or out of range |
| Emulation.MemoryController.Write | cocotb/emulation/memory.py:46-58 | the word becomes the byte-merge with what was stored, nothing else moves, out-of-range writes are dropped |
| Emulation.MemoryController.AxiHandler | cocotb/emulation/memory.py:60-83 | an invalid request changes nothing; a valid one reads on a zero strobe, writes otherwise, and is ready |
| Emulation.CacheController.HandleSnoop | cocotb/emulation/cache.py:263-324 | a matching line is left as the snoop table has it; the payload is the word of a MODIFIED line of the address snooped by a read or a read-exclusive, and zero in every other case |
| Emulation.CacheController.SendDirCmd | cocotb/emulation/cache.py:77-114 | the command takes the whole system to the directory transaction's outcome, and returns its reply |
| Emulation.CacheController.HandleTagMismatch | cocotb/emulation/cache.py:136-155 | the whole system after the eviction phase, for a granted eviction and for a refused one, which still invalidates the line |
| Emulation.CacheController.HandleCpuRead | cocotb/emulation/cache.py:157-206 | the whole system, ready flag and word after a read miss; on a hit, the system after the tag check, nothing read yet; an invalid request changes nothing |
| Emulation.CacheController.ReadHit | cocotb/emulation/cache.py:193-198 | after the wait, the word the line has by then |
| Emulation.CacheController.HandleCpuWrite | cocotb/emulation/cache.py:209-253 | the whole system and ready flag after a write miss or upgrade; on a hit, the system after the tag check, nothing stored yet; an invalid request changes nothing |
| Emulation.CacheController.StoreHit | cocotb/emulation/cache.py:254-256 | after the wait, the strobed merge into the line the slot holds by then, whatever its state |
| Emulation.DirectoryController.SendSnoop | cocotb/emulation/directory.py:123-164 | exactly the target cache is snooped, and its flushed word returned |
| Emulation.DirectoryController.SnoopOthers | cocotb/emulation/directory.py:301-305 | the loop snoops every cache in the mask except the requester, and changes nothing else |
| Emulation.DirectoryController.FlushOwner | cocotb/emulation/directory.py:203-224 | the owner is snooped and the word it hands over is written to memory, nothing else moves |
| Emulation.DirectoryController.BusRd | cocotb/emulation/directory.py:167-251 | new system state and reply of a bus read |
| Emulation.DirectoryController.BusRdx | cocotb/emulation/directory.py:254-348 | new system state and reply of a read-exclusive, including the refusal of an owner's own |
| Emulation.DirectoryController.BusUpgr | cocotb/emulation/directory.py:350-405 | new system state and reply of an upgrade, falling back to a read-exclusive |
| Emulation.DirectoryController.EvictClean | cocotb/emulation/directory.py:407-445 | the sharer leaves; an empty entry becomes INVALID, an ownerless MODIFIED one SHARED |
| Emulation.DirectoryController.EvictDirty | cocotb/emulation/directory.py:449-483 | the word goes to memory and the sharer leaves |
| Emulation.DirectoryController.HandleCoherence | cocotb/emulation/directory.py:485-524 | dispatch on the command |
| RoundRobin.WeightedRoundRobinArbiter.Create | cocotb/emulation/weighted_round_robin.py:14-41 | the argument errors, and otherwise an arbiter at its first requester with full credits |
| RoundRobin.WeightedRoundRobinArbiter.Arbitrate | cocotb/emulation/weighted_round_robin.py:144-185 | a wrong length is an error that changes nothing; with nobody asking all zeros and the turn where it was; otherwise a one exactly at the first requester counting round from the turn, which pays one credit and passes the turn on with its last; never a timeout |
| RoundRobin.WinnerFirst | cocotb/emulation/weighted_round_robin.py:158-181 | with some requester, the winner is the first one counting round from the current index, with its remaining or full credits |
| RoundRobin.ForeignGrant | cocotb/emulation/weighted_round_robin.py:158-181 | every grant to another requester shortens a requester's wait, whatever the others ask |
| RoundRobin.StarvationBound | cocotb/emulation/weighted_round_robin.py:144-185 | a requester that keeps asking is granted before the others have had more grants than the sum of their weights |
| RoundRobin.WaitTight | cocotb/emulation/weighted_round_robin.py:158-181 | with everyone asking, exactly the computed wait of foreign grants precedes a requester's turn, so the bound is met |
| RoundRobin.ExactShare | cocotb/emulation/weighted_round_robin.py:31-41 | from any state, while the same ones keep asking, as many grants as their weights add up to give each of them exactly its weight and nobody else any, and the turn is back where it was |
| RoundRobin.KeepsTurn | cocotb/emulation/weighted_round_robin.py:167-173 | a requester granted with credits left that still asks is granted again with one credit less, whatever the others ask |
| SerialLink.JoinSplit | src/interposer_interface/tserializer.sv:130-133 | the low chunks of a zero-extended message, joined again, are its low bits |
| SerialLink.StreamRoundTrip | src/interposer_interface/tserializer.sv:62-139 | for any pin count and any stream of offers: one valid pulse per message, in order, the low chunks being the message, at most two on their way |
| SerialLink.TopChunkFirst | src/interposer_interface/tserializer.sv:62-139 | the transmitter asks for as many cycles as the message has chunks and puts the top one on the pins first |
| SerialLink.LastWordLowest | src/interposer_interface/rserializer.sv:56-105 | the receiver has what came last at the bottom and says valid for one cycle once the request is down |
| SerialLink.ValidHeld | src/interposer_interface/rserializer.sv:56-105 | valid rises as the request falls, falls as it rises, and otherwise stays until it is taken |
| SerialLink.Drains | src/interposer_interface/rserializer.sv:56-105 | with no further offers everything sent has been received within the message length and two cycles |
| Packet.LengthCovers | src/interposer_interface/cache_interface.sv:86-96 | no non-zero bit of a packet lies above its length class |
| Packet.ClassIsLeast | src/interposer_interface/cache_interface.sv:86-96 | the class is the least: four bits and 32 for each field the command carries; no shorter class covers every packet of the command; the serializer sends just the chunks those bits take |
| Packet.PacketRoundTrip | src/interposer_interface/cache_interface.sv:86-96 | from the chunks sent, the command is recovered if and only if it is one the interface knows, with its address, data, or both |
| Packet.Received | src/interposer_interface/cache_interface.sv:140-164 | from the chunks of a directory message, the code, its route, its 32-bit field and its identity byte are recovered |
| PacketStream.StreamRecovered | src/interposer_interface/cache_interface.sv:86-120 | from reset, any pin count, any requests: the k-th message received has the command, address and data of the k-th request accepted |
| LinkRtl.AckDelivered | src/interposer_interface/cache_interface.sv:140-224 | an arrived message goes to the pipe its code names with its field, and to no other pipe or register |
| LinkRtl.NothingArrives | src/interposer_interface/cache_interface.sv:140-224 | without an arriving message a pipe only gives up what is taken, and the identity register stays |
| Downlink.DownstreamRouted | src/interposer_interface/cache_interface.sv:118-213 | from reset, any pin counts up and down, any messages of the far end: what enters the bus pipe is the acknowledgements sent and what enters the snoop pipe the snoops sent, each in order with code and field; at most two messages are under way |
| Tile.RoutesByMeaning | src/interposer_interface/cache_interface.sv:149-160 | the acknowledgement of a command goes to the bus pipe exactly if the command wants a reply, a snoop to the snoop pipe, code 14 alone to the identity register, any other code nowhere |
| Tile.AnswerExists | src/interposer_interface/cache_interface.sv:149-160 | whatever is owed, a write-back's acknowledgement too, the directory has a message that answers it whenever its transmitter is free |
| Tile.PipesWait | src/chip_core.sv:298-389 | what waits in a pipe is taken by its machine when that can take it, and otherwise stays, whether or not the directory keeps any discipline |
| Wire.WordRoundTrip | src/interposer_interface/cache_interface.sv:86-96 | a 32-bit field carries a word without loss |
| Wire.BitsRoundTrip | src/interposer_interface/cache_interface.sv:86-96 | a field carries an address if and only if it fits the field |
| Wire.CodesRoundTrip | src/interposer_interface/cache_interface.sv:52-69 | every command the controller sends is one the interface packs, and its code reads back as itself |
| Wire.CodesAre | src/interposer_interface/cache_interface.sv:52-69 | the numbers of the codes |
| Wire.LanesInOrder | src/interposer_interface/cache_interface.sv:86-96 | lane l of a word stands on bits 8l to 8l + 7 of its field |
| Wire.ByteInOrder | src/interposer_interface/cache_interface.sv:86-96 | its low bit first |
| Wire.LowBitFirst | src/interposer_interface/cache_interface.sv:86-96 | a field has the low bit of its number first, and above it the bits of the half |
| LinkRtl.ShiftInPlace | src/interposer_interface/tserializer.sv:125-128 | the shift loop moves every word up one place |
| LinkRtl.TSerializer.Posedge | src/interposer_interface/tserializer.sv:62-139 | one edge of the transmitter |
| LinkRtl.RSerializer.Posedge | src/interposer_interface/rserializer.sv:47-105 | one edge of the receiver |
| LinkRtl.LossyPipeStage.Posedge | src/interposer_interface/lossy_pipe_stage.sv:35-57 | one edge of the overwriting pipe |
| LinkRtl.CacheInterface.Posedge | src/interposer_interface/cache_interface.sv:86-224 | one edge of the whole interface |
| PortedArray.OutputsAgree | src/mem_ctrl/two_port_cache_mem.sv:193-220 | ready, valid and the answer on each port are the atomic array's |
| PortedArray.StackStep | src/mem_ctrl/two_port_cache_mem.sv:91-220 | with the active port holding its request, one edge of the byte-serial stack is one edge of the atomic array |
| PortedArray.DataStep | src/mem_ctrl/mem128x32.sv:102-209 | one byte step: the strobed lanes done so far hold the new bytes, the read register the old ones, no other word moves |
| PortedArray.TagStep | src/mem_ctrl/mem128x6.sv:92-186 | the tag access shows the addressed row and moves no other |
| StackRuns.RunIsAtomic | src/mem_ctrl/two_port_cache_mem.sv:91-220 | in every run with holding masters each accepted request gets exactly one answer, in order and on its port; reads return the entry as last written; writes change exactly the strobed bytes, tag and state of their entry |
| StackRuns.AnsweredInTime | src/mem_ctrl/mem128x32.sv:123-170 | a held request is answered on the sixth edge after acceptance if its port is ready then, with the atomic answer, and nothing is accepted or answered in between |
| Sram.TakesTurns | src/mem_ctrl/two_port_cache_mem.sv:91-220 | the free memory goes to the port that asks, and of two to the one not served last; it is locked until both memories show their answer and the port takes it |
| StackRuns.Boot | src/mem_ctrl/mem128x32.sv:113-121 | 513 edges after reset the stack is the all-zero, all-INVALID array if and only if nobody asked between the two clears; asked there, it is wedged |
| StackRuns.WedgedForever | src/mem_ctrl/cache_mem.sv:54-94 | a wedged stack accepts and answers nothing ever again |
| SramRtl.SyncSram.Posedge | cocotb/models/gf180_sram512x8_model.sv:26-38 | an enabled edge loads the old content and stores if asked |
| SramRtl.Mem128x32.Posedge | src/mem_ctrl/mem128x32.sv:74-209 | one edge of the byte-serial data memory over its macro |
| SramRtl.Mem128x6.Posedge | src/mem_ctrl/mem128x6.sv:92-186 | one edge of the tag memory over its macro |
| SramRtl.TwoPortCacheMem.Posedge | src/mem_ctrl/two_port_cache_mem.sv:91-220 | one edge of the two-port lock and both memories |
| Outbound.OutboundArbiter.Posedge | src/cache_controller/outbound_arbiter.sv:116-230 | one edge of the arbiter |
| Outbound.TakesTurns | src/cache_controller/outbound_arbiter.sv:116-230 | idle, the one that asks is registered, and of two the one whose turn it is, the next turn being the other's; registered, it stays until the link takes it |
| Outbound.DeliveredInterleaves | src/cache_controller/outbound_arbiter.sv:116-230 | with masters that hold, what crosses the link is an interleaving of what each master saw taken: no loss, duplication or reordering |
| Outbound.BypassedOnce | src/cache_controller/outbound_arbiter.sv:71-79 | a waiting master is passed by at most one foreign delivery |
| Controller.CpuHandshakes | src/cache_controller/cache_controller.sv:596-936 | the CPU machine asks and takes in matching pairs of states, keeps driving an accepted request unchanged until answered, and holds an untaken outbound request |
| Controller.SnpHandshakes | src/cache_controller/cache_controller.sv:437-500 | the same of the snoop machine |
| Controller.WaitsFor | src/cache_controller/cache_controller.sv:645-828 | a write-back waits for its own acknowledgement and lets any other pass; a fetch takes the first that comes, with its word if it answers a read |
| Controller.CoordinatedStep | src/cache_controller/cache_controller.sv:393-941 | every edge keeps: a transaction is under way on a port exactly while its machine is in a memory-response state still driving it, and the registered outbound request is the granted machine's |
| Controller.AlwaysInStep | src/mem_ctrl/cache_mem.sv:54-94 | in every run: busy iff both memory machines are out of IDLE, the tag memory in its response whenever the data memory is, busy for a port iff that port's machine is in a memory-response state |
| Controller.RawRuns | src/mem_ctrl/two_port_cache_mem.sv:114-143 | in every run the controller over the byte-serial stack is, register by register, the controller over the atomic array |
| ControllerRtl.CpuMachine.Posedge | src/cache_controller/cache_controller.sv:535-941 | one edge of the CPU machine's registers |
| ControllerRtl.SnoopMachine.Posedge | src/cache_controller/cache_controller.sv:393-533 | one edge of the snoop machine's registers |
| ControllerRtl.CacheController.Posedge | src/cache_controller/cache_controller.sv:335-385 | one edge of both machines, the arbiter and the memory stack, all from the outputs before it |
| SnoopProgress.RankFalls | src/cache_controller/cache_controller.sv:426-532 | every edge with a fair link lowers a ranking over snoop phase, memory port and outbound grant until the acknowledgement is sent |
| SnoopProgress.SnoopAcked | src/cache_controller/cache_controller.sv:426-532 | with a link that takes a request within K edges, a snoop under way is acknowledged within 2K + 31 edges, whatever the CPU machine waits for |
| SnoopProgress.SnoopServed | src/cache_controller/cache_controller.sv:428-435 | a snoop offered to an idle machine is taken at once and acknowledged within 2K + 32 edges |
| CpuProgress.CpuRankFalls | src/cache_controller/cache_controller.sv:581-936 | every edge with a fair link and a fair directory lowers a ranking over the phase of the job, the memory port, the outbound grant and the reply outstanding |
| CpuProgress.JobServed | src/cache_controller/cache_controller.sv:581-936 | a job offered to an idle machine is taken at once, the access before the flush, each at its own address, and that job is done, to the one who asked, within 4K + 2D + 49 edges more, K bounding the link and D the replies, under any stream of snoops |
| CpuProgress.RunKeeps | src/cache_controller/cache_controller.sv:581-936 | from one state in the discipline, every run of allowed edges is a run the bounds hold of |
| Transactions.RtlMeetsHandler | src/cache_controller/cache_controller.sv:807-818 | the cell the hardware leaves is the atomic handler's if and only if, on a write miss, the stale cell and the fetched word agree on the lanes not written |
| Transactions.PartialWriteMiss | src/cache_controller/cache_controller.sv:807-818 | an instance in which they differ |
| Transactions.AckCarries | src/cache_controller/on_snoop_event_state_machine.sv:44-86 | the hardware's snoop acknowledgement carries the word of a MODIFIED line of the address to a snoop that reads, and zero in every other case |
| Transactions.AllOutsAreMessages | src/cache_controller/cache_controller.sv:629-787 | the messages the hardware should send are the handler's: the eviction, then the bus command |
| Transactions.CpuInvStep | src/cache_controller/cache_controller.sv:581-936 | each edge keeps registers, messages sent, reply received and cell where the handler would be, for any reply delay |
| Transactions.CpuInvDone | src/cache_controller/cache_controller.sv:761-842 | at its last edge a CPU transaction has sent the handler's messages and left its cell, and a read returns that cell's word |
| Serialised.SnpInvStep | src/cache_controller/cache_controller.sv:426-532 | each edge keeps the snoop machine and its cell where the snoop handler would be |
| Serialised.RunIsSerial | src/cache_controller/cache_controller.sv:393-941 | every run over the real stack with the two machines on different cells and replies that echo their command is a legal sequence of atomic handler calls in order of completion: cells, read data and messages are all theirs |
| Serialised.EitherOrder | src/mem_ctrl/two_port_cache_mem.sv:114-220 | neighbouring transactions on different cells can be put in either order: legal iff legal, same array |
| HandlerSteps.SameMessages | cocotb/emulation/cache.py:136-206 | the emulated step's eviction and bus command are the cell handler's |
| HandlerSteps.HandlerIsStep | cocotb/emulation/cache.py:157-260 | a granted emulated access leaves the requester's line, and returns the word, that the cell handler does with the directory's reply |
| HandlerSteps.EventIsStep | src/cache_controller/cache_controller.sv:581-842 | a legal transaction of the hardware has the emulated step's messages and returned word, and leaves its line, on a partial write miss exactly under the stated condition |
| HandlerSteps.FlushIsEvict | src/cache_controller/cache_controller.sv:844-936 | a flush sends the message of, and leaves the line of, the emulated eviction of the address it flushes, and neither when the line is not held |
| AckPipe.AckStep | src/cache_controller/cache_controller.sv:645-662 | a request leaves only when no reply is outstanding; a reply never reaches an occupied pipe; the acknowledgement seen echoes the command awaited |
| AckPipe.NothingLost | src/interposer_interface/lossy_pipe_stage.sv:35-57 | in every run in which the directory answers each request at most once, its answers travelling in order, the pipe overwrites nothing, at most one reply is outstanding, and each request that wants a reply is followed by its acknowledgement before anything else is sent |
| Tile.TileStep | src/chip_core.sv:298-389 | one edge of the chip, over its real memory, pipes and serializers, is one edge of the specification |
| Tile.UpClockStep | src/interposer_interface/tserializer.sv:62-139 | the interface's own serializer takes a request within the longest message and one edge: the link's fairness is not an assumption |
| TileRtl.ChipTile.Posedge | src/chip_core.sv:298-389 | one edge of the clocked controller and the clocked interface, each driven by the other's outputs before it |
| TileRuns.EdgeExists | src/chip_core.sv:298-389 | from every good state every allowed input leads on: the run theorems are about runs there are |
| TileRuns.RunKeeps | src/cache_controller/cache_controller.sv:393-941 | along every run of the chip the specification is mirrored, transactions are in order, and replies echo their command, which is not assumed |
| TileAcks.NoAckLost | src/interposer_interface/lossy_pipe_stage.sv:35-57 | over the real link, for all inputs, as long as the directory acknowledges only what it owes: no acknowledgement comes out of the receiver onto an occupied pipe, and each request that wants a reply is followed by its acknowledgement before the CPU machine sends anything else |
| TileSnoops.SnoopServed | src/cache_controller/cache_controller.sv:426-532 | over the real memory and link, from every coordinated chip and for all inputs, a snoop under way is acknowledged within a bound in the count of upward pins alone |
| SnoopPipe.PathStep | src/interposer_interface/lossy_pipe_stage.sv:35-57 | one edge keeps: each acknowledgement answers its snoop in order, and at most one snoop is open, on the link, in the pipe or in the machine; a snoop never reaches an occupied pipe |
| TileSnoops.NoSnoopLost | src/interposer_interface/cache_interface.sv:188-213 | over the real link, as long as the directory waits for each acknowledgement before its next snoop: the k-th acknowledgement carries the event and the address of the k-th snoop sent, and every snoop finds pipe and machine free |
| TileSnoops.EverySnoopAnswered | src/cache_controller/cache_controller.sv:426-532 | then every snoop sent is acknowledged within a bound in the two pin counts, whatever else the directory sends and the processor does |
| TileUplink.UplinkCarries | src/interposer_interface/cache_interface.sv:86-120 | from reset, for all inputs, the k-th message the far end receives from the chip is the k-th request its arbiter handed over, the processor's or a snoop's, with its command and what its packet carries of address and data; at most two are on their way |
| Downlink.DownWaitFalls | src/interposer_interface/rserializer.sv:56-105 | a message on the way down comes nearer at every edge until it comes out, whatever is sent behind it |
| TileRuns.RepliesInTime | src/interposer_interface/cache_interface.sv:118-186 | a directory that starts each reply within its latency has it in the pipe within that latency and the longest message down |
| TileRuns.JobServed | src/cache_controller/cache_controller.sv:581-936 | a job offered to an idle controller, an access or a flush, is finished by the hardware within a bound in both pin counts and the time the directory takes to start a reply; what it sent, what it returns and what the memory then holds are its handler's |
| TileRuns.FlushServed | src/cache_controller/cache_controller.sv:588-593 | a flush offered to an idle controller finishes in the same bound: the SRAM no longer holds the address asked for, and what was sent is its eviction if it was held, and nothing if not |
| TileRuns.ChipIsEmulator | cocotb/emulation/cache.py:157-260 | and those are the messages, the word and the line of the emulated step, in every emulated system whose line and whose directory's reply are the ones the access met |
| CellLog.SerialByCell | src/mem_ctrl/two_port_cache_mem.sv:114-220 | a legal log of transactions is legal on each cell by itself, and leaves each cell as the cell's own transactions do |
| CellLog.CallsDecide | src/cache_controller/cache_controller.sv:393-941 | what a cell's transactions sent, acknowledged and returned is decided by what they were asked |
| Fleet.RoundCell | cocotb/emulation/directory.py:485-524 | one transaction served by the directory: what it and its snoops do to every cell of every chip is what the emulated step does |
| Fleet.FleetIsFlat | cocotb/emulation/directory.py:485-524 | for any number of chips and any history served, if each chip's log is legal and asks of each cell what the history asks of it, each chip did what the emulated system does, which is one flat memory |
| Fleet.ReadsLastWritten | cocotb/emulation/cache.py:157-260 | in that history a read returns the word the flat memory holds when its turn comes |
| TileFleet.ChipsAreFlat | src/chip_core.sv:298-389 | the same of any number of chips as hardware, each in any run from boot; an idle chip's SRAM holds the emulated lines |
| TileBoot.BootsGood | src/chip_core.sv:53-113 | from reset, with nothing for the pipes on the link while the memory clears, the chip is after 513 edges where those run theorems start |
| TileBoot.BootsWatched | src/chip_core.sv:53-113 | and where the theorems about snoops start, with none asked yet |
| InitGate.ResetGate.Posedge | src/chip_core.sv:82-109 | one edge of the counter and the synchroniser |
| InitGate.HoldsBack | src/chip_core.sv:69-113 | shut, the gate holds back what the processor asks and nothing else; open, nothing |
| InitGate.ReleasedWhen | src/chip_core.sv:69-113 | the processor is out of reset exactly from edge 513 on and while boot-done was high two edges before |
| InitGate.LeavesResetClean | src/chip_core.sv:53-113 | from the time memory is declared ready until the processor leaves reset, every line is INVALID and the memory serves, if and only if no snoop came in the first 512 edges; otherwise the memory is wedged and the gate opens all the same |
| InitGate.CleanRows | src/mem_ctrl/mem128x6.sv:106-118 | a clean chip has every row of the tag SRAM itself INVALID |
| InitGate.BootedClear | src/mem_ctrl/mem128x32.sv:113-121 | when memory_ready rises the chip is the specification's over the all-zero array if and only if no snoop came in the first 512 edges; then all 512 data bytes and 128 tag rows are zero and the machines are as reset left them, but for a snoop just taken |
| InitGate.BootEstablishes | src/cache_controller/cache_controller.sv:335-356 | a run out of reset with no snoop in the first 512 edges leads to the starting conditions of the serialisation and acknowledgement theorems |

## Left out

- The asyncio barrier in front of the arbiter, `CPU.py`, `core.py`, `emulate.py`: only the grant decision is modelled, and that a hit waits. The command of a miss is the one its line calls for when it is granted.
- `flush_all` and `dump_cache`: test helpers; the first skips the directory on purpose.
- Same-cell overlap of a snoop and a CPU transaction in the hardware: the design arbitrates single accesses and does not serialise whole transactions, so `Serialised.Apart` is a condition on the environment, as in the repository's stress test (cocotb/cache_controller_tb.py:843-852). The snoop and acknowledgement theorems (`SnoopProgress`, `TileSnoops`, `AckPipe`, `TileAcks`) hold without it.
- A directory that sends a second snoop before the first is acknowledged: what enters the overwriting snoop pipe is then still stated (`Downlink.DownstreamRouted`), not that it is taken.
- Scan and debug mode: fixed off in every clocked module.
- PicoRV32, MMIO, GPIO and special addresses: not part of this model; the processor is an arbitrary environment that asks for nothing while in reset.
- Pads, PDK macros and physical design: the SRAM is the repository's own synchronous behavioural model.
- The directory chip is not part of this model: the far end of the link is the repository's serializer and otherwise an environment. What `Fleet` asks of it is what the emulated directory does: transactions served one at a time (`Fleet.Served`, which also leaves out the partial write misses of `Transactions.RtlMeetsHandler`), their snoops and replies reaching each cell in that order (`Fleet.InTurn`).
- Register widths that cannot overflow (the serializer's counter, the boot counter) are naturals; nine-bit and seven-bit SRAM addresses wrap explicitly. Cycle-level word addresses are naturals of which tag and index are taken, and of which the link carries 32 bits.
- Registers nothing reads (`wdata_q` of both memories, `data_to_write_q` of the tag memory, `cpu_cmd_valid_q`), the `mem_instr` flag, and the unused fourth code of the two-bit line state, which the type excludes. Snoop and bus-acknowledgement codes are typed by the pipe that carries them.
- Request vectors of the weighted round-robin are booleans: the code's lists hold 0 and 1.
