# A verified model of mini-hypervisor

mini-hypervisor is a virtual machine monitor on top of KVM. It writes page tables and descriptor
tables into guest memory, services the exits of a vCPU against port-I/O, PCI and MMIO buses,
reconstructs accelerated doorbell and interrupt registrations in the kernel, and derives a CPUID
policy. This project models that logic in Dafny and proves what it guarantees: for every accepted
configuration, every prior content of memory, every stream of exits, every outcome of a kernel
call and every interleaving of threads.

`dafny verify dfyconfig.toml` checks everything.

## How it is organised

| file | what it holds |
|---|---|
| `Words.dfy` | machine words, little-endian strings, bitwise operators on naturals, byte ranges |
| `GuestRam.dfy` | guest memory: a region and a byte array with checked reads and writes |
| `Paging.dfy` | the processor's four-level walk over bytes (section 4.5 of the Intel SDM, volume 3A) with access rights (section 4.6) |
| `Descriptors.dfy` | the processor's reading of IDT gates (section 6.14.1), segment and TSS descriptors, and their encoders |
| `LongMode.dfy`, `Interrupts.dfy`, `Privilege.dfy`, `AddressSpaces.dfy`, `Loader.dfy` | the four table layouts and the flat image loader, proved against that reading |
| `Isolation.dfy` | preparing both address spaces, and user-mode code at work in them, with the processor setting accessed and dirty bits |
| `Mmio.dfy`, `MmioRuns.dfy` | the MMIO bus: registry, dispatch, level and edge interrupt devices, event queue; and whole runs of it |
| `Pci.dfy`, `PortIo.dfy`, `Vcpu.dfy`, `Execution.dfy` | PCI configuration mechanism 1 with an MSI capability, the port bus, the run area, exit dispatch and the bounded run loop |
| `RunArea.dfy`, `Answers.dfy` | the byte layout of `struct kvm_run`, which the decoders are proved to read; and what an exit or a whole run does in those bytes |
| `HostRegistration.dfy`, `RegistrationCodec.dfy`, `Reconstruction.dfy` | doorbell/interrupt descriptors, their canonical pair, the two byte formats, and reconstruction against a kernel that may fail |
| `Roundtrip.dfy`, `RoundtripSafety.dfy`, `RoundtripProgress.dfy` | the three-thread doorbell/interrupt/watchdog protocol as interleaved steps; what every run keeps; how runs end and when they stall |
| `Cpuid.dfy` | deriving and comparing CPUID policies |

Objects that the program updates in place are classes (`GuestMemory`, `MmioBus`, `PortIoBus`,
`VcpuState`, `Kernel`), and each of their methods is tied to a specification function or to the
hardware's reading of the bytes. The threads of the round trip are a state machine: one step is
one call of one thread. Integers are mathematical; every width, overflow check and truncation of
the program is written out. What the program cannot see is a parameter that may be anything: the
stream of `KVM_RUN` outcomes, a virtio device's answers, whether a kernel call fails, which thread
moves next.

## Main results

1. **Boot tables.** For every accepted list of alias mappings and any prior memory, the installed
   bytes translate every 64-bit virtual address exactly as the abstract map says, and only the four
   table pages change (`LongMode.InstallPageTables`). Loading an image that avoids them changes no
   translation, and fetches through the walk read the image (`Loader.FetchReadsImage`).
2. **Two address spaces.** Both roots agree on all supervisor translations, open the same virtual
   pages to user mode, back them with disjoint frames, and never lead user mode to a table
   (`AddressSpaces.InstallTables`, `SpacesAgree`, `UserFramesDisjoint`, `UserNeverReachesTables`).
   Byte for byte, the second space's code, data and stack pages are the frames at 0x20000, 0x21000
   and 0x22000, so after preparation each space fetches its own program at the same address
   (`SecondUserPages`, `Isolation.PrepareSpaces`).
   Noninterference: however the stores of both spaces interleave, and whatever accessed and dirty
   bits the processor sets meanwhile, every translation, gate and descriptor stays, and each space
   finds in its memory what its own stores alone would have left there
   (`Isolation.MarkedRunKeepsSpaces`, `SpacesDoNotInterfere`, `MarkedRunIsolates`).
3. **Interrupt gates.** Every vector decodes to exactly the listed gate or to none, deliveries can
   run, and an interrupt frame of any content below the stack pointer disturbs nothing
   (`Interrupts.DeliveryFindsGate`, `DeliveryRuns`, `FramePushHarmless`). In the ring-3 layout vector
   0x80 enters 0x15000, 0x81 enters 0x13000 and every other faults (`Privilege.VectorsExact`).
4. **MMIO.** Over every run: ranges stay disjoint, so an address has one owner; the line of every
   level device, whenever it was registered, alternates from an assert; a drain ends in registration
   order and leaves each line asserted exactly when its last command came after its last
   acknowledgement (`Mmio.RunKeepsValid`, `DispatchFindsOwner`, `DrainExact`,
   `MmioRuns.ConstructedLinesAlternate`, `DrainedLineFollowsCommands`). No virtio notification is
   lost, invented or reordered, and edge requests come at exactly the takes that follow a write
   (`NotificationsConserved`, `EdgeRequestsExact`).
5. **Exit loop.** The imperative loop computes a short recursive specification; budget, trace and
   lists add up however the run ends; the lists are the in-order decodings of the stream, and the
   device logs are their projections, after a failed run too (`Execution.RunVcpuUntilStopped`,
   `WholeRun`). In bytes: an exit laid out as `struct kvm_run` has it decodes to itself and nothing
   else decodes (`RunArea.PortExitRoundTrip`, `MmioExitRoundTrip`, `DiagnosticRoundTrip`); every read
   leaves exactly the device's answer in the area (`Answers.DebugInputAnswered`,
   `ConfigReadAnswered`, `WindowReadAnswered`); and over a run each log grows by one byte of the area
   per serviced write (`DebugLogIsOutput`, `DeviceLogIsOutput`).
6. **Registrations.** Both formats decode exactly the image of their encoders
   (`RegistrationCodec.PairDecodesItsImage`); reconstruction is all or nothing up to removals that
   themselves fail, and the error says whether there are any (`Reconstruction.ReconstructPair`). It
   names them all exactly when no registration had both its removals fail: when both fail the
   program reports the doorbell alone (`BothFailedHidesInterrupt`, `PairNamesSurvivors`).
7. **Round trip.** In every interleaving the removal of each registration made is tried exactly
   once, after both workers ended; success proves the accelerated path
   (`RoundtripSafety.CleanupOnEveryPath`, `SuccessProvesAcceleration`). No schedule holds more than
   28 thread steps. A run can stall in one way only, in `KVM_RUN` on a halted guest that no one is
   left to wake (`RoundtripProgress.StallsExactly`), and does so only if bridge and watchdog both
   ended without raising the interrupt or the guest halted again after taking one
   (`StallsOnlyUnserved`, `WatchdogPreventsStalls`, with stalled runs shown for both).
8. **CPUID.** A comparison is exact when and only when the two lists are the same map and the
   reference is consistent; with unique leaves that is being a permutation
   (`Cpuid.ExactMatchIsMapEquality`, `ExactMatchIsPermutation`).

## Model

| member | source | states |
|---|---|---|
| `GuestRam.NewRegion` | src/memory.rs:30-56 | a region is accepted exactly when it is non-empty, aligned and ends below 2^64 |
| `GuestRam.Region.CheckedOffset` | src/memory.rs:83-112 | an access is accepted exactly when it lies in the region, and then at its distance from the base; a refusal tells an overflow from an access outside |
| `GuestRam.OverlapIsSharedAddress` | src/memory.rs:79-81 | two regions overlap exactly when some address lies in both |
| `GuestRam.GuestMemory.constructor` | src/memory.rs:122-130 | new guest memory is all zero |
| `GuestRam.GuestMemory.Read` | src/memory.rs:137-151 | reads exactly the bytes at the address, or fails outside the region |
| `GuestRam.GuestMemory.Write` | src/memory.rs:153-167 | replaces exactly the bytes at the address; a refused write changes nothing |
| `Paging.EntryWritten` | src/long_mode.rs:431-433 | writing a 64-bit word into a table slot changes that entry and no other |
| `LongMode.MaskAlignsDown` | src/long_mode.rs:414-416 | masking with the complement of the page size is rounding down to the page |
| `LongMode.StackAcceptedExact` | src/long_mode.rs:330-356 | memory and stack pass exactly when RAM starts at zero, covers 2 MiB, and the byte below the pointer lies in it off the four table pages |
| `LongMode.ValidatePageMappings` | src/long_mode.rs:358-412 | accepts exactly the admissible duplicate-free lists, and otherwise reports the first offending mapping's first problem |
| `LongMode.NewBoot` | src/long_mode.rs:183-205 | the layout without aliases is accepted exactly when memory, stack and entry are |
| `LongMode.WithPageMappings` | src/long_mode.rs:207-241 | accepts exactly the valid layouts; each refusal names the first check that fails |
| `LongMode.LookupExact` | src/long_mode.rs:401-409 | in a validated list each mapped page has one physical page and no other page has any |
| `LongMode.InstallIdentityMap` | src/long_mode.rs:291-307 | whatever memory held, the four pages now hold the identity map alone |
| `LongMode.InstallAliases` | src/long_mode.rs:315-324 | the alias table holds one entry per mapping and nothing else |
| `LongMode.InstallPageTables` | src/long_mode.rs:288-327 | every virtual address translates as the abstract map says, and only the four table pages changed |
| `LongMode.BootWalk` | src/long_mode.rs:288-327 | tables with these entries, walked by the processor, are the abstract map at every address, whatever else is in memory |
| `LongMode.BootTranslationsFrame` | src/long_mode.rs:288-327 | changing any byte outside the table pages changes no translation |
| `LongMode.EntryTranslates` | src/long_mode.rs:216-233 | the entry of an accepted layout translates into RAM off the page tables |
| `LongMode.StackTranslates` | src/long_mode.rs:330-356 | in the installed bytes the byte below an accepted stack pointer is writable supervisor memory off the tables |
| `Descriptors.EncodeGate` | src/interrupt.rs:441-450 | filling a zeroed buffer field by field yields the gate's 16 bytes |
| `Descriptors.GateRoundTrip` | src/interrupt.rs:441-450 | the processor decodes an encoded gate to its handler, selector, type and privilege level |
| `Descriptors.GateInstalled` | src/interrupt.rs:330-336 | writing a gate changes the entry of its own vector and no other |
| `Descriptors.TaskStateRoundTrip` | src/privilege.rs:523-533 | an encoded TSS descriptor decodes to its base and limit wherever it is placed |
| `Interrupts.ScanGates` | src/interrupt.rs:233-266 | accepts exactly the admissible gates with distinct vectors and finds their largest vector |
| `Interrupts.WithGates` | src/interrupt.rs:193-279 | accepts exactly the valid configurations with the tight table limit; each refusal names the first failing check |
| `Interrupts.GateTableExact` | src/interrupt.rs:330-336 | each listed handler is at its own vector, behind a ring-0 interrupt gate through selector 8, and every other vector has none |
| `Interrupts.InstallTables` | src/interrupt.rs:321-338 | all vectors decode to the listed gates or none, all addresses translate as the boot map, only the reserved pages changed |
| `Interrupts.InstallGates` | src/interrupt.rs:330-336 | the gate loop turns an empty table into the listed one |
| `Interrupts.DeliveryFindsGate` | src/interrupt.rs:268-272 | within the limit each vector finds exactly its listed gate; the limit hides none |
| `Interrupts.DeliveryRuns` | src/interrupt.rs:193-279 | each listed vector decodes to its own handler, selector 8, interrupt type, ring 0; the selector is a present 64-bit ring-0 code segment and the handler is mapped memory off the tables |
| `Interrupts.KernelDataSegment` | src/interrupt.rs:36-40 | selector 0x10 names a present writable ring-0 data segment |
| `Interrupts.FrameIsWritable` | src/interrupt.rs:211-231 | the 40 bytes below the stack pointer are writable supervisor memory outside every table |
| `Interrupts.FramePushHarmless` | src/interrupt.rs:211-231 | overwriting those 40 bytes with anything changes no gate and no translation |
| `Privilege.NewAccepts` | src/privilege.rs:157-192 | the fixed ring-3 layout passes all its checks exactly for RAM at zero of at least the identity map's size |
| `Privilege.GdtBytes` | src/privilege.rs:513-521 | the buffer filled descriptor by descriptor is the intended table |
| `Privilege.TssBytes` | src/privilege.rs:546-552 | the buffer holds the ring-0 stack pointer and the I/O bitmap offset and is otherwise zero |
| `Privilege.SelectorsDecode` | src/privilege.rs:513-533 | selectors 8, 0x10, 0x1b, 0x23 and 0x28 name the kernel and user segments and the TSS, each with its privilege level |
| `Privilege.TaskStateFields` | src/privilege.rs:546-552 | in the installed bytes the I/O bitmap starts past the TSS limit and all but it and the ring-0 stack is zero |
| `Privilege.RootWalk` | src/privilege.rs:491-511 | the 512 leaf entries, walked, are the identity with user access on the three user pages only |
| `Privilege.WalkExact` | src/privilege.rs:491-511 | the low 2 MiB translate to themselves, writable, and user mode has exactly the pages at 0xa000, 0x11000 and 0x1fc000; nothing else translates |
| `Privilege.UserReach` | src/privilege.rs:568-573 | user mode reaches three pages only, none of them a table |
| `Privilege.InstallPageTree` | src/privilege.rs:491-511 | relinking and the 512-entry loop replace the bootstrap map |
| `Privilege.InstallTables` | src/privilege.rs:219-246 | whatever memory held, tables and descriptors are installed, vector 0x80 decodes to the handler at 0x15000 and 0x81 to that at 0x13000, and only the reserved pages changed |
| `Privilege.VectorsExact` | src/privilege.rs:231-244 | of the installed bytes, 0x80 decodes to 0x15000 and 0x81 to 0x13000, both ring-0 code callable from ring 3, and every other vector to nothing |
| `Privilege.TrapRuns` | src/privilege.rs:535-552 | a trap through 0x80 finds the handler at 0x15000, one through 0x81 that at 0x13000, in supervisor memory, with the stack 0x1fe000 from the TSS, writable and outside the tables |
| `Privilege.OtherVectorsFault` | src/privilege.rs:231-243 | every vector but the two installed ones has no gate |
| `AddressSpaces.PlacementExact` | src/address_space.rs:155-162 | the first scan refuses exactly a misaligned page or one outside memory |
| `AddressSpaces.DuplicateExact` | src/address_space.rs:163-173 | the pairwise scan finds a duplicate exactly when there is one |
| `AddressSpaces.NewAccepts` | src/address_space.rs:134-175 | the reserved pages are well placed in any RAM the ring-3 layout accepts |
| `AddressSpaces.FillSecondTable` | src/address_space.rs:466-490 | the loop fills the second leaf table with the backing frames and rights that `SecondUserPages` and `SecondSupervisorPages` spell out |
| `AddressSpaces.InstallSecondRoot` | src/address_space.rs:450-492 | the second root's four tables are linked and filled, and nothing else changes |
| `AddressSpaces.InstallTables` | src/address_space.rs:192-206 | both roots translate every address as their maps say, the second giving code at 0x11000, data at 0xa000 and the stack page at 0x1fc000 the frames 0x20000, 0x21000 and 0x22000; adding the second leaves the first as it was |
| `AddressSpaces.FirstSpaceFrame` | src/address_space.rs:192-206 | memory unchanged below the second root still holds the whole first space |
| `AddressSpaces.SecondWalk` | src/address_space.rs:466-490 | the second root, walked, is the second map at every address |
| `AddressSpaces.SecondUserPages` | src/address_space.rs:468-477 | under the second root byte k of 0x11000 is 0x20000+k, of 0xa000 is 0x21000+k and of 0x1fc000 is 0x22000+k, all writable by user mode |
| `AddressSpaces.SecondSupervisorPages` | src/address_space.rs:466-499 | every other address of the low 2 MiB is itself and closed to user mode; nothing else translates |
| `AddressSpaces.SpacesAgree` | src/address_space.rs:466-499 | the same pages exist and are open to user mode in both spaces; the translations agree exactly on supervisor pages |
| `AddressSpaces.UserNeverReachesTables` | src/address_space.rs:494-499 | no user-accessible address of either root reaches a page-table, GDT, IDT or TSS page |
| `AddressSpaces.UserFramesDisjoint` | src/address_space.rs:468-477 | no two user addresses, one in each space, share a physical byte |
| `AddressSpaces.SecondUserInjective` | src/address_space.rs:468-477 | different user addresses of the second space never share a byte |
| `AddressSpaces.ReadPte` | src/address_space.rs:521-530 | reads the slot of the address, wrapping at 2^64, or fails outside RAM; within the table it is the entry the processor uses |
| `AddressSpaces.PteCheckIsHardware` | src/address_space.rs:628-640 | the mask test holds exactly when the processor reads this frame, present, writable and with this user right |
| `AddressSpaces.InstalledEntriesPass` | src/address_space.rs:628-640 | every leaf entry either root installs passes that test for its own page |
| `Paging.WalkUpToMarks` | src/address_space.rs:628-640 | accessed and dirty bits, in any words of memory and under any root, change no translation |
| `Isolation.UserTargetIsolated` | src/address_space.rs:466-499 | in the installed bytes, a byte user mode may write in one space is no table byte and no user byte of the other |
| `Isolation.StoresKeepSpaces` | src/address_space.rs:192-206 | after any sequence of user-mode stores in both spaces, both are still installed and every translation is what it was |
| `Isolation.PrepareSpaces` | src/address_space.rs:305-342 | tables, five images and two data bytes: then at 0x11000 the first root fetches the first program and the second root the second, the kernel and both handlers are in place, and both data pages read zero |
| `Isolation.CodeFetches` | src/address_space.rs:312-319 | fetches at 0x11000 read the frame at 0x11000 under the first root and the one at 0x20000 under the second |
| `Isolation.DataStores` | src/address_space.rs:468-477 | a store at 0xa000+k changes exactly byte 0x21000+k in the second space and 0xa000+k in the first |
| `Isolation.StackStores` | src/address_space.rs:474-476 | a store at 0x1fc000+k changes exactly byte 0x22000+k in the second space and 0x1fc000+k in the first |
| `Isolation.SpacesDoNotInterfere` | src/address_space.rs:466-499 | however stores of both spaces interleave, each byte a space can reach holds what that space's own stores alone would have left |
| `Isolation.MarkedRunSimulates` | src/address_space.rs:192-206 | stores interleaved with arbitrary accessed and dirty bits leave, but for those bits, what the stores alone leave |
| `Isolation.MarkedRunKeepsSpaces` | src/address_space.rs:192-206 | so every translation of both roots and all descriptors and gates survive any such run |
| `Isolation.MarkedRunIsolates` | src/address_space.rs:466-499 | and so does noninterference |
| `Isolation.MarkedEntriesPass` | src/address_space.rs:628-640 | every leaf entry of both roots still passes the read-back test after any such run |
| `Loader.NewImage` | src/loader.rs:14-48 | an image is accepted exactly when it is non-empty, does not overflow and contains its entry |
| `Loader.Load` | src/loader.rs:65-67 | loads exactly the image's bytes, or changes nothing |
| `Loader.FetchReadsImage` | src/loader.rs:65-67 | an image off the page tables changes no translation, and every address reaching it reads its byte |
| `Loader.BootFetchesEntry` | src/long_mode.rs:216-241 | after loading, the entry of every accepted layout translates and fetches the image's byte where it reaches it |
| `Mmio.HandleEffect` | src/mmio.rs:578-645 | an access is refused without a trace, or reads without change, or logs its one byte; it never moves the device or its line; which accesses a plain or edge device takes and what they do |
| `Mmio.TakeSettles` | src/mmio.rs:647-670 | a device has an event exactly when it is unsettled, the event is the edge's request or the line's change, and taking it settles the device |
| `Mmio.AvailableExact` | src/mmio.rs:421-443 | a range is available exactly when it and all registered ranges fit below 2^64 and none meets it |
| `Mmio.ConflictTells` | src/mmio.rs:421-443 | a refusal names the first registered range in the way: one that passes 2^64 or one that shares an address |
| `Mmio.RegistrationExact` | src/mmio.rs:414-443 | a byte device's registration succeeds exactly then, appends exactly the device, and otherwise changes nothing |
| `Mmio.WindowRegistrationExact` | src/mmio.rs:201-219 | the same for both kinds of virtio window |
| `Mmio.StepKeepsValid` | src/mmio.rs:178-279 | each operation keeps the registered ranges pairwise disjoint |
| `Mmio.RunKeepsValid` | src/mmio.rs:178-279 | so does every run of accesses, takes and registrations, successful or refused |
| `Mmio.UniqueOwner` | src/mmio.rs:221-269 | at most one registered range handles an address |
| `Mmio.DispatchFindsOwner` | src/mmio.rs:221-269 | the three first-match searches find the owner and nothing else, whichever runs first |
| `Mmio.DispatchFrame` | src/mmio.rs:221-269 | a dispatch changes the owner only and a refused one nothing; a byte device queues nothing; an unowned address is refused as unhandled |
| `Mmio.WindowAccess` | src/mmio.rs:229-262 | in a virtio window an accepted write appends exactly the record of the queue it notifies at the window's base, an accepted read returns the device's bytes in order, a rejection does nothing |
| `Mmio.OverflowingDeviceBlocksBus` | src/mmio.rs:137-176 | a device constructed past 2^64 is never reached and no later registration ever succeeds |
| `Mmio.StepLine` | src/mmio.rs:647-670 | one operation emits at most the one line event that toggles the device's line |
| `Mmio.LineAlternates` | src/mmio.rs:612-670 | over any run a device's line events alternate from its line state, and asserts minus deasserts is the change of that state |
| `MmioRuns.EveryLineAlternates` | src/mmio.rs:612-670 | from a bus that announced nothing, the line records of every level device of the final state, including those registered during the run, alternate from an assert and add up to its line |
| `MmioRuns.ConstructedLinesAlternate` | src/mmio.rs:122-176 | so from every constructor |
| `MmioRuns.NotificationsConserved` | src/mmio.rs:229-279 | over any run the queue records handed out, then those still queued, are the initial queue, then the notifications of the accepted writes, in order |
| `MmioRuns.EdgeRequestsExact` | src/mmio.rs:594-670 | over any run an edge device requests an interrupt at exactly the takes that follow a write since the last take |
| `MmioRuns.ConfiguredByteReadsBack` | src/mmio.rs:594-610 | after any run a plain or edge device answers a read with its configured byte, without change |
| `MmioRuns.ConstructedByteReadsBack` | src/mmio.rs:137-176 | so from its constructor on |
| `MmioRuns.RegisteredByteReadsBack` | src/mmio.rs:178-188 | and from its registration on |
| `MmioRuns.RunPending` | src/mmio.rs:612-645 | over any run a level device is pending exactly when its last command came after its last acknowledgement, whatever other traffic there was |
| `MmioRuns.DrainedLineFollowsCommands` | src/mmio.rs:612-670 | and after a drain its line is asserted exactly then |
| `Mmio.TakeProgress` | src/mmio.rs:271-279 | each record taken lowers the outstanding work by one; none left means settled devices and an empty queue |
| `Mmio.DrainExact` | src/mmio.rs:271-279 | draining ends with at most one record per device in registration order, then the queue in order, every device settled |
| `Mmio.MmioBus.Empty` | src/mmio.rs:122-129 | an empty bus |
| `Mmio.MmioBus.WithByteDevice` | src/mmio.rs:137-176 | a bus with one unchecked device in any of the three modes |
| `Mmio.MmioBus.EnsureRangeAvailable` | src/mmio.rs:421-443 | the scan loop reports the first conflict in registry order |
| `Mmio.MmioBus.RegisterByteDeviceAt` | src/mmio.rs:178-188 | registers a plain device as the specification step does |
| `Mmio.MmioBus.RegisterLevelInterruptByteDeviceAt` | src/mmio.rs:190-199 | registers a level device as the specification step does |
| `Mmio.MmioBus.RegisterVirtioRngDeviceAt` | src/mmio.rs:201-209 | registers a random-number window as the specification does |
| `Mmio.MmioBus.RegisterVirtioBlkDeviceAt` | src/mmio.rs:211-219 | registers a block-device window as the specification does |
| `Mmio.MmioBus.DispatchExit` | src/mmio.rs:221-269 | the three searches and the owner's update are the specification's dispatch, whose effect on the owner `HandleEffect`, `LevelRegisters` and `WindowAccess` state |
| `Mmio.MmioBus.TakeDeviceEventRecord` | src/mmio.rs:271-279 | the polling loop is the specification's take |
| `Pci.WriteExact` | src/pci.rs:84-110 | a capability write is accepted exactly for the writable bits of its three registers |
| `Pci.RunState` | src/pci.rs:280-334 | over any run of cycles the latch and the registers hold the last accepted value of each |
| `Pci.MessageExact` | src/pci.rs:112-121 | a message exists exactly when the last accepted control write set enable, with the last accepted address and data |
| `Pci.ProgrammedValuesReadBack` | src/pci.rs:70-110 | after any run, selecting a capability register and reading it returns the last value accepted for it |
| `Pci.OnlyAcceptedWritesMatter` | src/pci.rs:280-307 | a run ends where its accepted writes alone end: refused cycles and reads leave no trace |
| `Pci.NoCapabilityNoMessage` | src/pci.rs:189-197 | without the capability no run ever yields a message or changes the function |
| `Pci.SelectorSelects` | src/pci.rs:309-344 | latching a register's selector selects that register, rounded down to a double word |
| `Pci.SelectedExact` | src/pci.rs:309-325 | an address selects a register exactly when it is enabled and names bus 0, device 1, function 0 |
| `Pci.DataReadExact` | src/pci.rs:327-330 | a data read returns the bytes of the named register, or all ones without a named function |
| `Pci.RegisterBytesExact` | src/pci.rs:173-186 | byte for byte, the capability's registers over the fixed image, with byte 0x65 pointing at the capability |
| `Pci.AddressReadsBack` | src/pci.rs:291-293 | after any run the address port reads back the last address written |
| `Pci.FixedReadsOverRuns` | src/pci.rs:280-330 | after any run a data read outside the capability is settled by the last address and the fixed image |
| `PortIo.ResponseFits` | src/portio.rs:73-92 | an accepted input is answered with exactly size times count bytes, the debug port's with its configured byte, an output with none; a refusal changes nothing |
| `PortIo.AcceptedExact` | src/portio.rs:73-92 | exactly which accesses are accepted, by port, width, count and value, and which error each refused one gets |
| `PortIo.DebugStep` | src/portio.rs:130-155 | an accepted exit extends the debug log by its own debug bytes |
| `PortIo.PortIoBus.DispatchIo` | src/portio.rs:73-92 | the bus updates exactly as the specification does |
| `Vcpu.CheckedIoDataRange` | src/vcpu.rs:325-351 | the range check accepts exactly the payloads that lie in the run area |
| `Vcpu.MmioExitOf` | src/vcpu/mmio.rs:157-190 | a decoded access is 1 to 8 bytes long, and a write carries exactly that many |
| `Vcpu.VcpuState.RunOnce` | src/vcpu.rs:268-278 | a completed run fills the run area and is classified by its reason |
| `Vcpu.VcpuState.WritePortIoInput` | src/vcpu.rs:473-498 | the response replaces exactly the checked range, or nothing |
| `Vcpu.VcpuState.WriteMmioReadResponse` | src/vcpu/mmio.rs:123-155 | the response replaces exactly the first data bytes, or nothing |
| `RunArea.PortExitRoundTrip` | src/vcpu.rs:434-471 | an exit laid out in the run area at any offset that fits decodes to that exit, and whatever decodes is laid out so |
| `RunArea.PortExitRefusals` | src/vcpu.rs:434-446 | a wrong reason, a direction above one and a range past the area are each refused with what was found |
| `RunArea.MmioExitRoundTrip` | src/vcpu/mmio.rs:157-190 | an access decodes exactly when its reason, address, length, direction and data lie at their offsets |
| `RunArea.MmioRefusals` | src/vcpu/mmio.rs:123-190 | each refusal with what was found; a response is taken exactly for a read, at exactly its length |
| `RunArea.DiagnosticRoundTrip` | src/vmexit.rs:97-140 | a diagnostic is built exactly when its payload lies at its offsets, and reports that payload |
| `Execution.AttachTraceExact` | src/execution.rs:107-250 | attaching replaces the trace of the eight diagnostics and nothing else of any error |
| `Execution.DiagnosticNamesExit` | src/vmexit.rs:155-214 | a diagnostic names the exit it was built for |
| `Execution.PortResponseAccepted` | src/vmexit.rs:70-78 | for every decodable port exit the bus's answer passes the response check |
| `Execution.MmioResponseAccepted` | src/vmexit.rs:80-91 | for every decodable access the bus's answer passes the response check |
| `Execution.PortOutcomeExact` | src/vmexit.rs:70-78 | a port exit fails without effect or is serviced: after an input the data range holds exactly the bus's answer, and nothing else ever changes; response errors are unreachable |
| `Execution.MmioOutcomeExact` | src/vmexit.rs:80-91 | the same for MMIO and the data bytes of the access |
| `Execution.OutcomeExact` | src/vmexit.rs:64-140 | failures change nothing and name their exit; exactly terminal exits with readable registers stop |
| `Execution.DispatchPortIo` | src/vmexit.rs:70-78 | the port branch is the specified outcome, which `PortOutcomeExact` and the lemmas of `Answers` read in bytes |
| `Execution.DispatchMmio` | src/vmexit.rs:80-91 | the MMIO branch is the specified outcome |
| `Execution.DispatchVcpuExit` | src/vmexit.rs:64-140 | dispatch is the specified outcome in result, devices and run area |
| `Answers.PortExitServiced` | src/vmexit.rs:70-78 | the exit laid out in the area is the one serviced, and the bus's answer is written at its offset |
| `Answers.DebugOutputLogged` | src/portio.rs:141-151 | a byte written to port 0xe9 is appended to the debug log, and nothing else changes |
| `Answers.DebugInputAnswered` | src/portio.rs:152 | a byte read from port 0xe9 puts the configured byte at the data offset, and nothing else changes |
| `Answers.ConfigReadAnswered` | src/pci.rs:294-296 | a read of port 0xcfc puts the named register's bytes, or all ones, at the data offset |
| `Answers.AddressReadAnswered` | src/pci.rs:291-293 | a read of port 0xcf8 puts the latched address there |
| `Answers.MmioExitServiced` | src/vmexit.rs:80-91 | the access laid out in the area is the one serviced, and the owner's answer is written from offset 40 |
| `Answers.ConfiguredByteAnswered` | src/mmio.rs:594-610 | a read of a plain or edge device puts its configured byte there |
| `Answers.StatusAnswered` | src/mmio.rs:621-625 | a status read of a level device puts its pending state there |
| `Answers.WindowReadAnswered` | src/mmio.rs:476-499 | an accepted read in a virtio window puts the device's bytes there, in order |
| `Answers.WindowWriteNotifies` | src/mmio.rs:229-262 | an accepted write there queues exactly the device's notification |
| `Answers.TerminalExitStops` | src/vmexit.rs:88-96 | reasons 4, 5 and 8 stop with a debug, halt or shutdown report of the registers |
| `Execution.CompleteRun` | src/execution.rs:78-80 | a completed run extends budget and trace together |
| `Execution.RunVcpuUntilStopped` | src/execution.rs:61-105 | the loop computes the recursive specification for every stream and budget |
| `Execution.RunAccounted` | src/execution.rs:61-105 | at most the budget's runs; trace, completed count and lists agree; exhaustion uses the whole budget; every diagnostic carries the whole trace ending in its own reason |
| `Execution.WriteLogged` | src/mmio.rs:594-645 | an accepted write extends the log of exactly the device that owns its address |
| `Execution.RunProjects` | src/execution.rs:76-105 | however a run ends, debug output and device logs are their prior contents followed by the projections of the stream's serviced exits, decoded in order (in bytes: `Answers.DebugLogIsOutput`, `DeviceLogIsOutput`); a successful run returns exactly those exits |
| `Execution.WholeRun` | src/execution.rs:52-105 | accounts, lists and logs together for a run from any devices on a valid bus |
| `Answers.DebugLogIsOutput` | src/execution.rs:61-105 | however a run ends, the debug log grew by the byte at the data offset of each serviced output to port 0xe9, in order |
| `Answers.DeviceLogIsOutput` | src/execution.rs:61-105 | and each byte device's log by the first data byte of each serviced write into its range |
| `HostRegistration.NewSpecExact` | src/kvm/host_registration.rs:10-49 | a descriptor is accepted exactly when its width is matchable, some write of that width carries the matched value, and its end is a 64-bit address; each refusal tells which of these fails |
| `HostRegistration.NewPairExact` | src/kvm/host_registration_pair.rs:7-37 | two descriptors pair exactly when no address rings both and their lines differ, in either order; the result holds both, strictly ascending |
| `HostRegistration.NewPairIdempotent` | src/kvm/host_registration_pair_schema_v1.rs:224-230 | a pair is valid exactly when constructing it again from its members returns it |
| `RegistrationCodec.CopyIn` | src/kvm/host_registration_schema_v1.rs:82-91 | a field written into the buffer follows what was before it and leaves what comes after |
| `RegistrationCodec.EncodeSpec` | src/kvm/host_registration_schema_v1.rs:80-93 | the filled buffer is the concatenation of the fields |
| `RegistrationCodec.SpecRoundTrip` | src/kvm/host_registration_schema_v1.rs:80-151 | decoding an encoded registration returns it |
| `RegistrationCodec.SpecCanonical` | src/kvm/host_registration_schema_v1.rs:95-151 | whatever decodes is the encoding of a valid registration |
| `RegistrationCodec.SpecRefusalTells` | src/kvm/host_registration_schema_v1.rs:95-151 | a refusal names a field that is wrong, with the value found in it |
| `RegistrationCodec.SpecDecodesItsImage` | src/kvm/host_registration_schema_v1.rs:80-151 | byte strings of any length decode exactly when they are in the image of the encoder |
| `RegistrationCodec.EncodePair` | src/kvm/host_registration_pair_schema_v1.rs:114-133 | the filled buffer is the header followed by both members |
| `RegistrationCodec.PairRoundTrip` | src/kvm/host_registration_pair_schema_v1.rs:114-222 | decoding an encoded pair returns it |
| `RegistrationCodec.PairCanonical` | src/kvm/host_registration_pair_schema_v1.rs:135-222 | whatever decodes is the encoding of a valid pair |
| `RegistrationCodec.PairRefusalTells` | src/kvm/host_registration_pair_schema_v1.rs:135-222 | the same for the pair format, and a member's refusal comes with its position |
| `RegistrationCodec.PairDecodesItsImage` | src/kvm/host_registration_pair_schema_v1.rs:114-230 | the pair format decodes exactly its image, and materialising a decoded pair never fails |
| `RegistrationCodec.ConstructedPairsDecode` | src/kvm/host_registration_pair_schema_v1.rs:212-220 | every constructed pair, from either order of its members, passes the decoder's order check and comes back |
| `Reconstruction.Kernel.Perform` | src/kvm/ioeventfd_roundtrip.rs:456-465 | a kernel call takes effect exactly when it does not fail, and is recorded |
| `Reconstruction.Kernel.Require` | src/kvm/ioeventfd_roundtrip.rs:436-454 | an extension is accepted exactly when the query succeeds with a positive value |
| `Reconstruction.Kernel.NewEventfd` | src/kvm/irqfd_timer.rs:43-63 | a fresh eventfd with a second handle, exactly when both calls succeed |
| `Reconstruction.PrepareDoorbell` | src/kvm/host_registration.rs:107-117 | everything before the first registration, which leaves the kernel's registrations alone |
| `Reconstruction.AssignWithSignal` | src/kvm/irqfd_timer.rs:113-122 | both handles exist before the interrupt is registered; failure registers nothing |
| `Reconstruction.Reconstruct` | src/kvm/host_registration.rs:102-153 | succeeds exactly when nothing fails and then adds its two registrations; otherwise leaves exactly what could not be removed and says so, and the error tells which call stopped it |
| `Reconstruction.Deassign` | src/kvm/host_registration.rs:176-199 | both removals are attempted in order, and an entry stays exactly when its own failed |
| `Reconstruction.ReconstructPair` | src/kvm/host_registration_pair.rs:71-95 | success adds exactly four new registrations; failure leaves exactly those whose removal failed; the error says whether there are any, and names them all exactly unless both removals of the first registration failed |
| `Reconstruction.DeassignPair` | src/kvm/host_registration_pair.rs:141-155 | all four removals are attempted, the second registration's first; an entry stays exactly when its own failed; the error is that of the four outcomes and names every survivor exactly when no registration had both removals fail |
| `Reconstruction.BothFailedHidesInterrupt` | src/kvm/host_registration.rs:188-198 | when both removals of a registration fail the error names the doorbell alone, and the surviving interrupt entry nowhere |
| `Reconstruction.PairNamesSurvivors` | src/kvm/host_registration_pair.rs:145-154 | the pair's error names every survivor if and only if neither registration had both removals fail |
| `RoundtripSafety.CleanupOnEveryPath` | src/kvm/ioeventfd_roundtrip.rs:281-401 | every returning run tried the removal of each registration it made exactly once; with both made, both removals come after both workers ended, the ioeventfd's first; survivors are failed removals; each of the five errors about registrations is returned exactly for what happened to them |
| `RoundtripSafety.SuccessProvesAcceleration` | src/kvm/ioeventfd_roundtrip.rs:331-434 | success means one read of exactly one ring, then one signal, then the vCPU's re-entry; no watchdog pulse; the whole proof printed; nothing left registered |
| `RoundtripSafety.GuardedFailuresNeverHappen` | src/kvm/ioeventfd_roundtrip.rs:308-314 | the acknowledgement always finds its receiver, and the final proof check never fails by itself |
| `RoundtripSafety.VerdictExact` | src/kvm/ioeventfd_roundtrip.rs:385-419 | the verdict is success exactly when both removals, both workers and the guest succeeded |
| `RoundtripSafety.FailureIsFinal` | src/kvm/ioeventfd_roundtrip.rs:331-419 | a run in which a registration, a vCPU entry, a flags check, the wait for the bridge or a removal failed never succeeds |
| `RoundtripSafety.ReachableInv` | src/kvm/ioeventfd_roundtrip.rs:281-434 | the protocol's invariants hold after every schedule |
| `RoundtripSafety.StepKeepsHandover` | src/kvm/ioeventfd_roundtrip.rs:525-540 | a completion message, and passing the wait for it, imply the signal was sent |
| `RoundtripSafety.StepKeepsLifetimes` | src/kvm/ioeventfd_roundtrip.rs:376-383 | workers are born after registration and have ended before cleanup, at every step |
| `RoundtripProgress.BoundedSteps` | src/kvm/ioeventfd_roundtrip.rs:281-434 | no schedule holds more than 28 thread steps, whatever the guest does |
| `RoundtripProgress.StallsExactly` | src/kvm/ioeventfd_roundtrip.rs:331-383 | before the return nothing can move if and only if the vCPU runs a halted guest with no interrupt pending and both workers have ended |
| `RoundtripProgress.StallsOnlyUnserved` | src/kvm/ioeventfd_roundtrip.rs:299-329 | a stalled run has bridge and watchdog both panicked or failed before raising the interrupt, or a guest that halted again after taking one |
| `RoundtripProgress.WatchdogPreventsStalls` | src/kvm/ioeventfd_roundtrip.rs:316-329 | unless the watchdog panics or fails before raising the line, no run of a guest that does not halt again stalls |
| `RoundtripProgress.StallWithoutWatchdog` | src/kvm/ioeventfd_roundtrip.rs:318-329 | with the watchdog panicked a run can stall |
| `RoundtripProgress.StallAfterRescue` | src/kvm/ioeventfd_roundtrip.rs:318-329 | with a guest that halts again a run can stall after the watchdog fired |
| `RoundtripProgress.SuccessIsReachable` | src/kvm/ioeventfd_roundtrip.rs:281-434 | when nothing fails one ring leads to success |
| `Cpuid.FromHost` | src/kvm/cpu.rs:148-176 | the loop derives every leaf in place |
| `Cpuid.DeriveExact` | src/kvm/cpu.rs:148-176 | exactly the listed bits and EBX fields change, and to exactly these values |
| `Cpuid.DerivedBits` | src/kvm/cpu.rs:148-176 | leaf 1 loses ECX bits 21 and 24, leaf 0x40000001 EAX bit 7; leaf 0xd reports 576 in subleaf 0, and in subleaf 1 with EAX bit 1 or 3; all else is the host's |
| `Cpuid.PolicyIdempotent` | src/kvm/cpu.rs:148-176 | a derived policy derives to itself |
| `Cpuid.BetweenExact` | src/kvm/cpu.rs:72-102 | two entries of a leaf mismatch exactly when they differ; the report lists the differing fields once each, in order |
| `Cpuid.WithoutExact` | src/kvm/cpu.rs:185-206 | an entry is reported missing or extra exactly when the other list lacks its leaf |
| `Cpuid.MismatchesExact` | src/kvm/cpu.rs:207-217 | an entry is reported mismatched exactly when it differs from the first entry observed for its leaf |
| `Cpuid.ComparisonPartitions` | src/kvm/cpu.rs:184-226 | each reference entry is exactly one of missing, mismatched and equal; missing one way is extra the other |
| `Cpuid.ExactMatchByEntry` | src/kvm/cpu.rs:265-269 | an exact match means every reference entry is found equal and no observed leaf is new |
| `Cpuid.ExactMatchIsMapEquality` | src/kvm/cpu.rs:184-269 | for all lists: exact exactly when the reference is consistent and both are the same map |
| `Cpuid.ExactMatchIsPermutation` | src/kvm/cpu.rs:184-269 | with unique leaves: exact exactly when the lists are permutations |
| `Cpuid.SelfMatchExact` | src/kvm/cpu.rs:184-269 | a policy matches itself exactly when entries of one leaf never disagree |
| `Cpuid.RepeatedLeavesBreakBoth` | src/kvm/cpu.rs:184-269 | with repeated leaves an exact match need not be a permutation, and a list need not match itself |
| `Cpuid.DerivedPolicyMatchesItself` | src/kvm/cpu.rs:148-226 | deriving keeps leaves unique, and a policy derived twice matches exactly |

## Choices a reader should know

- Where the text of an error carries only wording, the model keeps its kind and its values.
- `LongModeBootLayout::install_page_tables` and its siblings assert that the memory passed in is the
  layout's; the model makes that a precondition.
- A panic of the main thread (a failed `thread::spawn`) is not a return; the round trip treats
  starting a thread as infallible. Retries after an interrupted system call are not steps.
- Eventfds have an identity that is never reused, which is what the kernel registers; descriptor
  numbers are not modelled. A registration only disappears by an explicit removal.
- The guest may halt and take a pending interrupt at any moment of a run; running a halted guest
  returns only after it took one. An interrupt stays pending until it is taken, across exits.
- Accessed and dirty bits may be set or cleared in any page-table entry at any moment, which is more
  than a processor does.
- The wait for the bridge and the watchdog's wait may time out at any moment, even with a message
  already queued. The model therefore has more runs than the program, never fewer.
- The eight diagnostics that carry a trace also carry debug assertions about it in the source; each
  is part of `Execution.Accounted`, `ExitBudget.Matches` or a precondition of `ExitBudget.Record`.

## Left out

- Real ioctls, mappings, eventfds, threads and timers: they appear as outcomes that may be anything.
- The guest's machine code: the round trip treats the guest as free to ring or to stop anywhere, and a stage succeeds only with the byte the program checks for.
- Virtio devices: a window, and per access an arbitrary rejection or answer of the requested length; queue processing is not part of this model.
- Run-loop observers other than the one that does nothing.
- The checkpoint-quiescence probe of a registration pair: a two-element query without further structure.
- The guests that exercise reconstructed pairs: fixed byte sequences run twice.
- The ELF loader, model-specific registers, snapshots, page-set checkpoints, dirty logs, task switching and interrupt-controller codecs.
- Formatting of errors and results, command-line programs and configuration.
- Stack alignment by the processor before an interrupt push: the property covers the 40 bytes the program reserves.
- GuestRam.GuestMemory.constructor: assumes the mapping itself succeeds.
- Execution.MmioResponseAccepted: takes the length of a virtio answer as given, since an accepted read of either device model returns exactly the bytes asked for (src/pci/virtio.rs:363-402, src/pci/virtio_blk.rs:385).
- Vcpu.VcpuState.RunOnce: counts completed runs only; an interrupted run is retried by the program.
