/** The ring-3 layout: a 4 KiB-granular identity map with three user pages, a GDT with a task
    state segment, and two user-callable gates (src/privilege.rs). */
module Privilege {
  import opened Words
  import opened GuestRam
  import opened Paging
  import opened Descriptors
  import opened LongMode

  const GDT_ADDR: u64 := 0x5000
  const IDT_ADDR: u64 := 0x6000
  const TSS_ADDR: u64 := 0x7000
  const PT_ADDR: u64 := 0x8000
  const TABLE_END: u64 := 0x9000
  const OBSERVATION_ADDR: u64 := 0xa000
  const KERNEL_ENTRY: u64 := 0x1_0000
  const USER_ENTRY: u64 := 0x1_1000
  const RETURN_HANDLER: u64 := 0x1_5000
  const TERMINAL_HANDLER: u64 := 0x1_3000
  const BOOT_STACK: u64 := 0x1f_f000
  const TSS_RSP0: u64 := 0x1f_e000
  const USER_STACK: u64 := 0x1f_d000
  const KERNEL_CODE_SELECTOR: u16 := 0x08
  const KERNEL_DATA_SELECTOR: u16 := 0x10
  const USER_DATA_SELECTOR: u16 := 0x1b
  const USER_CODE_SELECTOR: u16 := 0x23
  const TSS_SELECTOR: u16 := 0x28
  const RETURN_VECTOR: u8 := 0x80
  const TERMINAL_VECTOR: u8 := 0x81
  const GATE_PRESENT_RING3: u8 := 0xee
  const GDT_LIMIT: u16 := 55
  const IDT_LIMIT: u16 := 0x081f
  const TSS_LIMIT: nat := 103
  const TSS_BYTES: nat := 104
  const TSS_IO_BITMAP_OFFSET: nat := 102

  // ---------------------------------------------------------------- layout validation

  datatype Role = KernelEntry | UserEntry | ReturnHandler | TerminalHandler | Observation
                | BootStack | KernelStack | UserStack

  datatype PrivilegeConfigError =
    | Boot(error: ConfigError)
    | AddressOutsideIdentityMap(role: Role, address: u64)
    | AddressOverlapsTables(role: Role, address: u64)
    | StackOutsideIdentityMap(role: Role, stack: u64)
    | KernelAddressSharesUserPage(role: Role, address: u64)

  datatype PrivilegeLayout = PrivilegeLayout(boot: BootLayout)

  predicate IsUserPage(address: u64) {
    var page := AlignDownPage(address);
    || page == AlignDownPage(USER_ENTRY)
    || page == AlignDownPage(OBSERVATION_ADDR)
    || page == AlignDownPage(USER_STACK - 1)
  }

  function AddressProblem(role: Role, address: u64): Option<PrivilegeConfigError> {
    if address >= IDENTITY_MAP_SIZE then Some(AddressOutsideIdentityMap(role, address))
    else if PML4_ADDR <= address < TABLE_END then Some(AddressOverlapsTables(role, address))
    else None
  }

  function StackProblem(role: Role, stack: u64): Option<PrivilegeConfigError> {
    if stack == 0 || stack > IDENTITY_MAP_SIZE then Some(StackOutsideIdentityMap(role, stack)) else None
  }

  function KernelPageProblem(role: Role, address: u64): Option<PrivilegeConfigError> {
    if IsUserPage(address) then Some(KernelAddressSharesUserPage(role, address)) else None
  }

  /** The first problem a check finds in a list of roles. */
  function FirstProblem(check: (Role, u64) -> Option<PrivilegeConfigError>, items: seq<(Role, u64)>)
    : Option<PrivilegeConfigError>
  {
    if items == [] then None
    else
      var problem := check(items[0].0, items[0].1);
      if problem.Some? then problem else FirstProblem(check, items[1..])
  }

  const ADDRESSES: seq<(Role, u64)> :=
    [(KernelEntry, KERNEL_ENTRY), (UserEntry, USER_ENTRY), (ReturnHandler, RETURN_HANDLER),
     (TerminalHandler, TERMINAL_HANDLER), (Observation, OBSERVATION_ADDR)]
  const STACKS: seq<(Role, u64)> := [(BootStack, BOOT_STACK), (KernelStack, TSS_RSP0), (UserStack, USER_STACK)]
  const KERNEL_PAGES: seq<(Role, u64)> :=
    [(KernelEntry, KERNEL_ENTRY), (ReturnHandler, RETURN_HANDLER), (TerminalHandler, TERMINAL_HANDLER),
     (BootStack, BOOT_STACK - 1), (KernelStack, TSS_RSP0 - 1)]

  function New(memory: Region): Result<PrivilegeLayout, PrivilegeConfigError> {
    var boot := NewBoot(memory, KERNEL_ENTRY, BOOT_STACK);
    if boot.Err? then Err(Boot(boot.error)) else
    var addresses := FirstProblem(AddressProblem, ADDRESSES);
    if addresses.Some? then Err(addresses.value) else
    var stacks := FirstProblem(StackProblem, STACKS);
    if stacks.Some? then Err(stacks.value) else
    var kernelPages := FirstProblem(KernelPageProblem, KERNEL_PAGES);
    if kernelPages.Some? then Err(kernelPages.value) else
    Ok(PrivilegeLayout(boot.value))
  }

  lemma {:induction false} NoProblem(check: (Role, u64) -> Option<PrivilegeConfigError>, items: seq<(Role, u64)>)
    requires forall i :: 0 <= i < |items| ==> check(items[i].0, items[i].1).None?
    ensures FirstProblem(check, items).None?
  {
    if items != [] { NoProblem(check, items[1..]); }
  }

  /** The fixed addresses pass every check, so the layout is refused only for RAM that does not
      start at zero or is smaller than the identity map. */
  lemma NewAccepts(memory: Region)
    ensures New(memory).Ok? <==> memory.base == 0 && memory.size >= IDENTITY_MAP_SIZE
    ensures New(memory).Ok? ==> New(memory).value.boot == BootLayout(memory, KERNEL_ENTRY, BOOT_STACK, [])
                                && LongMode.Accepted(New(memory).value.boot)
  {
    NoProblem(AddressProblem, ADDRESSES);
    NoProblem(StackProblem, STACKS);
    NoProblem(KernelPageProblem, KERNEL_PAGES);
  }

  // ---------------------------------------------------------------- page tables

  function LeafFlags(user: bool): nat { if user then 7 else 3 }

  function LeafEntry(index: nat): nat
    requires index < 512
  {
    index * PAGE + LeafFlags(IsUserPage(index * PAGE))
  }

  function LeafEntries(count: nat): (es: seq<nat>)
    requires count <= 512
    ensures |es| == 512
  {
    seq(512, i requires 0 <= i < 512 => if i < count then LeafEntry(i) else 0)
  }

  /** What the ring-3 tables are meant to translate: the low 2 MiB to themselves, with exactly
      three pages open to user mode. */
  function PrivilegeMap(va: u64): Option<Translation> {
    if va < IDENTITY_MAP_SIZE then Some(Translation(va, true, IsUserPage(va))) else None
  }

  lemma LeafFlagsMean(user: bool)
    ensures LeafFlags(user) % 2 == 1 && Writable(LeafFlags(user)) && (User(LeafFlags(user)) <==> user)
  {
  }

  lemma SamePage(va: u64)
    ensures va / PAGE * PAGE == AlignDownPage(va) && IsUserPage(va / PAGE * PAGE) == IsUserPage(va)
  {
  }

  lemma LeafEntriesMap(va: u64)
    ensures LeafMap(LeafEntries(512), va) == PrivilegeMap(va)
  {
    if va < IDENTITY_MAP_SIZE {
      var index := va / PAGE;
      SamePage(va);
      var user := IsUserPage(va);
      assert LeafEntries(512)[index] == index * PAGE + LeafFlags(user);
      FrameOf(index * PAGE, LeafFlags(user));
      LeafFlagsMean(user);
      hide IsUserPage; hide LeafFlags; hide Frame; hide Usable; hide Writable; hide User; hide LeafEntries;
    }
  }

  ghost predicate RootTables(ram: seq<u8>) {
    && TablePage(ram, PML4_ADDR, OnlyFirst(PDPT_ADDR + 7))
    && TablePage(ram, PDPT_ADDR, OnlyFirst(PD_ADDR + 7))
    && TablePage(ram, PD_ADDR, OnlyFirst(PT_ADDR + 7))
    && TablePage(ram, PT_ADDR, LeafEntries(512))
  }

  lemma RootWalk(ram: seq<u8>, va: u64)
    requires RootTables(ram)
    ensures Walk(ram, PML4_ADDR, va) == PrivilegeMap(va)
  {
    hide Walk; hide LeafMap; hide PrivilegeMap;
    assert Frame(PML4_ADDR) == PML4_ADDR;
    LeafWalk(ram, PML4_ADDR, PDPT_ADDR, PD_ADDR, PT_ADDR, LeafEntries(512), va);
    LeafEntriesMap(va);
  }

  lemma RootTablesFrame(s: seq<u8>, t: seq<u8>)
    requires RootTables(s) && SameOn(s, t, PML4_ADDR, PD_ADDR + PAGE) && SameOn(s, t, PT_ADDR, TABLE_END)
    ensures RootTables(t)
  {
    TablePageFrame(s, t, PML4_ADDR, OnlyFirst(PDPT_ADDR + 7));
    TablePageFrame(s, t, PDPT_ADDR, OnlyFirst(PD_ADDR + 7));
    TablePageFrame(s, t, PD_ADDR, OnlyFirst(PT_ADDR + 7));
    TablePageFrame(s, t, PT_ADDR, LeafEntries(512));
  }

  /** The installed bytes, walked: the low 2 MiB stand for themselves, writable throughout, and
      user mode may use exactly the pages at 0xa000, 0x11000 and 0x1fc000. */
  lemma WalkExact(ram: seq<u8>, va: u64)
    requires RootTables(ram)
    ensures Walk(ram, 0x1000, va)
         == if va < 0x20_0000
            then Some(Translation(va, true, va / 0x1000 == 0xa || va / 0x1000 == 0x11 || va / 0x1000 == 0x1fc))
            else None
  {
    hide Walk;
    RootWalk(ram, va);
  }

  /** User mode reaches three pages only, none of them a page-table, GDT, IDT or TSS page. */
  lemma UserReach(va: u64)
    requires PrivilegeMap(va).Some? && PrivilegeMap(va).value.user
    ensures var page := PrivilegeMap(va).value.physical - PrivilegeMap(va).value.physical % PAGE;
            page == USER_ENTRY || page == OBSERVATION_ADDR || page == USER_STACK - PAGE
    ensures !(PML4_ADDR <= PrivilegeMap(va).value.physical < TABLE_END)
  {
  }

  // ---------------------------------------------------------------- descriptors

  const KERNEL_CODE: seq<u8> := [0xff, 0xff, 0, 0, 0, 0x9b, 0xaf, 0]
  const KERNEL_DATA: seq<u8> := [0xff, 0xff, 0, 0, 0, 0x93, 0x8f, 0]
  const USER_DATA: seq<u8> := [0xff, 0xff, 0, 0, 0, 0xf3, 0x8f, 0]
  const USER_CODE: seq<u8> := [0xff, 0xff, 0, 0, 0, 0xfb, 0xaf, 0]

  function GdtImage(): (gdt: seq<u8>)
    ensures |gdt| == 56
  {
    [0, 0, 0, 0, 0, 0, 0, 0] + KERNEL_CODE + KERNEL_DATA + USER_DATA + USER_CODE + TaskStateBytes(TSS_ADDR, TSS_LIMIT)
  }

  function TssImage(): (tss: seq<u8>)
    ensures |tss| == TSS_BYTES
  {
    [0, 0, 0, 0] + LeBytes(TSS_RSP0, 8) + seq(90, _ => 0) + LeBytes(TSS_BYTES, 2)
  }

  /** `gdt_bytes`: a zeroed buffer filled descriptor by descriptor. */
  method GdtBytes() returns (gdt: seq<u8>)
    ensures gdt == GdtImage()
  {
    gdt := seq(56, _ => 0);
    gdt := Patch(gdt, 8, KERNEL_CODE);
    gdt := Patch(gdt, 16, KERNEL_DATA);
    gdt := Patch(gdt, 24, USER_DATA);
    gdt := Patch(gdt, 32, USER_CODE);
    assert gdt[..40] == [0, 0, 0, 0, 0, 0, 0, 0] + KERNEL_CODE + KERNEL_DATA + USER_DATA + USER_CODE;
    gdt := Patch(gdt, 40, TaskStateBytes(TSS_ADDR, TSS_LIMIT));
  }

  /** `tss_bytes`: a zeroed buffer with the ring-0 stack pointer and the I/O bitmap offset. */
  method TssBytes() returns (tss: seq<u8>)
    ensures tss == TssImage()
  {
    tss := seq(TSS_BYTES, _ => 0);
    tss := Patch(tss, 4, LeBytes(TSS_RSP0, 8));
    tss := Patch(tss, TSS_IO_BITMAP_OFFSET, LeBytes(TSS_BYTES, 2));
  }

  function UserGate(handler: u64): Gate { Gate(handler, KERNEL_CODE_SELECTOR, 0, INTERRUPT_GATE, 3) }

  /** The two gates user mode may call; every other vector has none. */
  function UserGates(): (table: seq<Option<Gate>>)
    ensures |table| == VECTORS
  {
    NoGates()[RETURN_VECTOR := Some(UserGate(RETURN_HANDLER))][TERMINAL_VECTOR := Some(UserGate(TERMINAL_HANDLER))]
  }

  ghost predicate DescriptorsHold(ram: seq<u8>) {
    && TABLE_END <= |ram|
    && ram[GDT_ADDR..GDT_ADDR + 56] == GdtImage()
    && ram[TSS_ADDR..TSS_ADDR + TSS_BYTES] == TssImage()
    && IdtHolds(ram, IDT_ADDR, UserGates())
  }

  ghost predicate Installed(ram: seq<u8>) { RootTables(ram) && DescriptorsHold(ram) }

  /** An unchanged reserved area keeps the whole layout. */
  lemma InstalledFrame(s: seq<u8>, t: seq<u8>)
    requires Installed(s) && SameOn(s, t, PML4_ADDR, TABLE_END)
    ensures Installed(t)
  {
    RootTablesFrame(s, t);
    DescriptorsFrame(s, t);
  }

  /** The descriptors depend on their own three pages alone. */
  lemma DescriptorsFrame(s: seq<u8>, t: seq<u8>)
    requires DescriptorsHold(s) && SameOn(s, t, GDT_ADDR, PT_ADDR)
    ensures DescriptorsHold(t)
  {
    IdtFrame(s, t, IDT_ADDR, UserGates());
    assert t[GDT_ADDR..GDT_ADDR + 56] == s[GDT_ADDR..GDT_ADDR + 56];
    assert t[TSS_ADDR..TSS_ADDR + TSS_BYTES] == s[TSS_ADDR..TSS_ADDR + TSS_BYTES];
  }

  /** Every selector the layout hands out names the segment it is meant to name. */
  lemma SelectorsDecode(ram: seq<u8>)
    requires DescriptorsHold(ram)
    ensures DecodeSegment(ram, 0x5000, 55, 0x08) == Some(Segment(true, true, true, 0))
    ensures DecodeSegment(ram, 0x5000, 55, 0x10) == Some(Segment(false, false, true, 0))
    ensures DecodeSegment(ram, 0x5000, 55, 0x1b) == Some(Segment(false, false, true, 3))
    ensures DecodeSegment(ram, 0x5000, 55, 0x23) == Some(Segment(true, true, true, 3))
    ensures DecodeTaskState(ram, 0x5000, 55, 0x28) == Some(TaskState(0x7000, 103, 0))
  {
    SegmentsDecode(ram);
    GdtTaskState(ram);
  }

  lemma SegmentsDecode(ram: seq<u8>)
    requires TABLE_END <= |ram| && ram[GDT_ADDR..GDT_ADDR + 56] == GdtImage()
    ensures DecodeSegment(ram, GDT_ADDR, GDT_LIMIT, KERNEL_CODE_SELECTOR) == Some(Segment(true, true, true, 0))
    ensures DecodeSegment(ram, GDT_ADDR, GDT_LIMIT, KERNEL_DATA_SELECTOR) == Some(Segment(false, false, true, 0))
    ensures DecodeSegment(ram, GDT_ADDR, GDT_LIMIT, USER_DATA_SELECTOR) == Some(Segment(false, false, true, 3))
    ensures DecodeSegment(ram, GDT_ADDR, GDT_LIMIT, USER_CODE_SELECTOR) == Some(Segment(true, true, true, 3))
  {
    GdtAccessBytes(ram);
    SegmentDecodes(ram, KERNEL_CODE_SELECTOR, 0x9b, 0xaf);
    SegmentDecodes(ram, KERNEL_DATA_SELECTOR, 0x93, 0x8f);
    SegmentDecodes(ram, USER_DATA_SELECTOR, 0xf3, 0x8f);
    SegmentDecodes(ram, USER_CODE_SELECTOR, 0xfb, 0xaf);
  }

  lemma SegmentDecodes(ram: seq<u8>, selector: u16, access: u8, flags: u8)
    requires TABLE_END <= |ram| && selector < 0x28
    requires ram[GDT_ADDR + selector / 8 * 8 + 5] == access && ram[GDT_ADDR + selector / 8 * 8 + 6] == flags
    requires access / 128 == 1 && access / 16 % 2 == 1
    ensures DecodeSegment(ram, GDT_ADDR, GDT_LIMIT, selector)
         == Some(Segment(access / 8 % 2 == 1, flags / 32 % 2 == 1, access / 2 % 2 == 1, access / 32 % 4))
  {
  }

  lemma GdtAccessBytes(ram: seq<u8>)
    requires TABLE_END <= |ram| && ram[GDT_ADDR..GDT_ADDR + 56] == GdtImage()
    ensures ram[GDT_ADDR + 13] == 0x9b && ram[GDT_ADDR + 14] == 0xaf
    ensures ram[GDT_ADDR + 21] == 0x93 && ram[GDT_ADDR + 22] == 0x8f
    ensures ram[GDT_ADDR + 29] == 0xf3 && ram[GDT_ADDR + 30] == 0x8f
    ensures ram[GDT_ADDR + 37] == 0xfb && ram[GDT_ADDR + 38] == 0xaf
  {
    var gdt := ram[GDT_ADDR..GDT_ADDR + 56];
    assert gdt[13] == 0x9b && gdt[14] == 0xaf && gdt[21] == 0x93 && gdt[22] == 0x8f;
    assert gdt[29] == 0xf3 && gdt[30] == 0x8f && gdt[37] == 0xfb && gdt[38] == 0xaf;
  }

  lemma GdtTaskState(ram: seq<u8>)
    requires TABLE_END <= |ram| && ram[GDT_ADDR..GDT_ADDR + 56] == GdtImage()
    ensures DecodeTaskState(ram, GDT_ADDR, GDT_LIMIT, TSS_SELECTOR) == Some(TaskState(TSS_ADDR, TSS_LIMIT, 0))
  {
    var gdt := ram[GDT_ADDR..GDT_ADDR + 56];
    SubSlice(ram, GDT_ADDR, GDT_ADDR + 56, 40, 56);
    assert gdt[40..56] == TaskStateBytes(TSS_ADDR, TSS_LIMIT);
    TaskStateRoundTrip(ram, GDT_ADDR, GDT_LIMIT, TSS_SELECTOR, TSS_ADDR, TSS_LIMIT);
  }

  /** Every vector of the installed IDT, as the processor decodes it: 0x80 enters the handler at
      0x15000 and 0x81 the one at 0x13000, each through a ring-0 code segment and open to ring 3;
      any other vector faults. */
  lemma VectorsExact(ram: seq<u8>, vector: u8)
    requires DescriptorsHold(ram)
    ensures DecodeGate(ram, 0x6000, 0x081f, vector)
         == if vector == 0x80 then Some(Gate(0x1_5000, 0x08, 0, 0xe, 3))
            else if vector == 0x81 then Some(Gate(0x1_3000, 0x08, 0, 0xe, 3))
            else None
  {
    assert GateOf(Slot(ram, IDT_ADDR, vector)) == UserGates()[vector];
  }

  /** A trap from user mode lands safely: the gate of either vector leads to its own handler, in
      supervisor memory, and the stack the TSS names is writable supervisor memory outside every
      table. */
  lemma TrapRuns(ram: seq<u8>, vector: u8, k: nat)
    requires Installed(ram) && (vector == 0x80 || vector == 0x81) && 1 <= k <= 40
    ensures var handler := if vector == 0x80 then 0x1_5000 else 0x1_3000;
            && DecodeGate(ram, IDT_ADDR, IDT_LIMIT, vector) == Some(Gate(handler, 0x08, 0, 0xe, 3))
            && Walk(ram, PML4_ADDR, handler) == Some(Translation(handler, true, false))
    ensures DecodeSegment(ram, GDT_ADDR, GDT_LIMIT, 0x08) == Some(Segment(true, true, true, 0))
    ensures LeValue(ram[TSS_ADDR + 4..TSS_ADDR + 12]) == 0x1f_e000
    ensures Walk(ram, PML4_ADDR, 0x1f_e000 - k) == Some(Translation(0x1f_e000 - k, true, false))
    ensures !(PML4_ADDR <= 0x1f_e000 - k < TABLE_END)
  {
    hide Walk; hide LeValue; hide DecodeGate; hide DecodeSegment; hide GdtImage; hide TssImage; hide IdtHolds;
    hide RootTables; hide DecodeTaskState;
    VectorsExact(ram, vector);
    WalkExact(ram, if vector == 0x80 then 0x1_5000 else 0x1_3000);
    SelectorsDecode(ram);
    WalkExact(ram, 0x1f_e000 - k);
    StackPointerInTss(ram);
  }

  lemma StackPointerInTss(ram: seq<u8>)
    requires DescriptorsHold(ram)
    ensures LeValue(ram[TSS_ADDR + 4..TSS_ADDR + 12]) == TSS_RSP0
  {
    SubSlice(ram, TSS_ADDR, TSS_ADDR + TSS_BYTES, 4, 12);
    TssStackField();
    LeWord(TSS_RSP0, 8);
  }

  lemma TssStackField()
    ensures TssImage()[4..12] == LeBytes(TSS_RSP0, 8)
  {
    var stack := LeBytes(TSS_RSP0, 8);
    assert forall j :: 0 <= j < 8 ==> TssImage()[4 + j] == stack[j];
  }

  /** The I/O permission bitmap starts past the segment's limit, so user mode has no ports; apart
      from that offset and the ring-0 stack the task state is zero. */
  lemma TaskStateFields(ram: seq<u8>)
    requires DescriptorsHold(ram)
    ensures LeValue(ram[0x7000 + 102..0x7000 + 104]) == 104 > 103
    ensures forall j :: 0x7000 <= j < 0x7000 + 102 && !(0x7004 <= j < 0x700c) ==> ram[j] == 0
  {
    SubSlice(ram, TSS_ADDR, TSS_ADDR + TSS_BYTES, 102, 104);
    var bitmap := LeBytes(TSS_BYTES, 2);
    assert TssImage()[102] == bitmap[0] && TssImage()[103] == bitmap[1];
    assert TssImage()[102..104] == bitmap;
    LeWord(TSS_BYTES, 2);
    forall j | 0x7000 <= j < 0x7000 + 102 && !(0x7004 <= j < 0x700c) ensures ram[j] == 0 {
      assert ram[j] == ram[TSS_ADDR..TSS_ADDR + TSS_BYTES][j - TSS_ADDR];
    }
  }

  /** Vectors without a gate fault, whether or not the limit covers them. */
  lemma OtherVectorsFault(ram: seq<u8>, vector: u8)
    requires Installed(ram) && vector != RETURN_VECTOR && vector != TERMINAL_VECTOR
    ensures DecodeGate(ram, IDT_ADDR, IDT_LIMIT, vector).None?
  {
    VectorsExact(ram, vector);
  }

  // ---------------------------------------------------------------- installing

  /** The ring-3 tables replace the bootstrap map, whatever RAM held before; only the eight
      reserved pages change. */
  method InstallTables(layout: PrivilegeLayout, memory: GuestMemory) returns (r: Result<(), MemoryError>)
    requires memory.Valid() && New(memory.region) == Ok(layout)
    modifies memory.ram
    ensures r.Ok?
    ensures Installed(memory.Bytes())
    ensures forall va: u64 :: Walk(memory.Bytes(), PML4_ADDR, va) == PrivilegeMap(va)
    ensures DecodeGate(memory.Bytes(), 0x6000, 0x081f, 0x80) == Some(Gate(0x1_5000, 0x08, 0, 0xe, 3))
    ensures DecodeGate(memory.Bytes(), 0x6000, 0x081f, 0x81) == Some(Gate(0x1_3000, 0x08, 0, 0xe, 3))
    ensures SameOutside(old(memory.Bytes()), memory.Bytes(), PML4_ADDR, TABLE_END)
  {
    NewAccepts(memory.region);
    r := InstallPageTables(layout.boot, memory);
    ghost var booted := memory.Bytes();
    r := ZeroPages(memory, GDT_ADDR, 4);
    BootTranslationsFrame(booted, memory.Bytes(), []);
    r := InstallPageTree(memory);
    ghost var rooted := memory.Bytes();
    r := InstallDescriptors(memory);
    RootTablesFrame(rooted, memory.Bytes());
    RootWalkAll(memory.Bytes());
    VectorsExact(memory.Bytes(), 0x80);
    VectorsExact(memory.Bytes(), 0x81);
  }

  lemma RootWalkAll(ram: seq<u8>)
    requires RootTables(ram)
    ensures forall va: u64 :: Walk(ram, PML4_ADDR, va) == PrivilegeMap(va)
  {
    forall va: u64 ensures Walk(ram, PML4_ADDR, va) == PrivilegeMap(va) { RootWalk(ram, va); }
  }

  /** Relinks the first entries to the leaf table, then fills its 512 entries. */
  method InstallPageTree(memory: GuestMemory) returns (r: Result<(), MemoryError>)
    requires memory.Valid() && memory.region.base == 0 && memory.region.size >= IDENTITY_MAP_SIZE
    requires BootTables(memory.Bytes(), [])
    requires forall j :: PT_ADDR <= j < TABLE_END ==> memory.Bytes()[j] == 0
    modifies memory.ram
    ensures r.Ok?
    ensures RootTables(memory.Bytes())
    ensures forall j :: 0 <= j < memory.ram.Length && !(PML4_ADDR <= j < PAGE_TABLE_END || PT_ADDR <= j < TABLE_END) ==>
                          memory.Bytes()[j] == old(memory.Bytes())[j]
  {
    r := LinkLeafTable(memory);
    ghost var linked := memory.Bytes();
    r := FillLeafTable(memory);
    TablePageFrame(linked, memory.Bytes(), PML4_ADDR, OnlyFirst(PDPT_ADDR + 7));
    TablePageFrame(linked, memory.Bytes(), PDPT_ADDR, OnlyFirst(PD_ADDR + 7));
    TablePageFrame(linked, memory.Bytes(), PD_ADDR, OnlyFirst(PT_ADDR + 7));
  }

  method LinkLeafTable(memory: GuestMemory) returns (r: Result<(), MemoryError>)
    requires memory.Valid() && memory.region.base == 0 && BootTables(memory.Bytes(), [])
    modifies memory.ram
    ensures r.Ok?
    ensures TablePage(memory.Bytes(), PML4_ADDR, OnlyFirst(PDPT_ADDR + 7))
    ensures TablePage(memory.Bytes(), PDPT_ADDR, OnlyFirst(PD_ADDR + 7))
    ensures TablePage(memory.Bytes(), PD_ADDR, OnlyFirst(PT_ADDR + 7))
    ensures SameOutside(old(memory.Bytes()), memory.Bytes(), PML4_ADDR, PAGE_TABLE_END)
  {
    ghost var pdpt, pd := OnlyFirst(PD_ADDR + 3), PdEntries(false);
    PageOr(PDPT_ADDR, 7); PageOr(PD_ADDR, 7); PageOr(PT_ADDR, 7);
    r := WriteFirst(memory, PML4_ADDR, Or(PDPT_ADDR, 7), PDPT_ADDR + 3);
    ghost var first := memory.Bytes();
    TablePageFrame(old(memory.Bytes()), first, PDPT_ADDR, pdpt);
    TablePageFrame(old(memory.Bytes()), first, PD_ADDR, pd);
    r := WriteFirst(memory, PDPT_ADDR, Or(PD_ADDR, 7), PD_ADDR + 3);
    ghost var second := memory.Bytes();
    TablePageFrame(first, second, PML4_ADDR, OnlyFirst(PDPT_ADDR + 7));
    TablePageFrame(first, second, PD_ADDR, pd);
    r := WriteFirst(memory, PD_ADDR, Or(PT_ADDR, 7), LARGE_PAGE_ENTRY_FLAGS);
    TablePageFrame(second, memory.Bytes(), PML4_ADDR, OnlyFirst(PDPT_ADDR + 7));
    TablePageFrame(second, memory.Bytes(), PDPT_ADDR, OnlyFirst(PD_ADDR + 7));
  }

  method FillLeafTable(memory: GuestMemory) returns (r: Result<(), MemoryError>)
    requires memory.Valid() && memory.region.base == 0 && TABLE_END <= memory.ram.Length
    requires forall j :: PT_ADDR <= j < TABLE_END ==> memory.Bytes()[j] == 0
    modifies memory.ram
    ensures r.Ok?
    ensures TablePage(memory.Bytes(), PT_ADDR, LeafEntries(512))
    ensures SameOutside(old(memory.Bytes()), memory.Bytes(), PT_ADDR, TABLE_END)
  {
    r := Ok(());
    ZeroPageIsEmptyTable(memory.Bytes(), PT_ADDR);
    assert LeafEntries(0) == NoEntries();
    for index := 0 to 512
      invariant r.Ok?
      invariant TablePage(memory.Bytes(), PT_ADDR, LeafEntries(index))
      invariant SameOutside(old(memory.Bytes()), memory.Bytes(), PT_ADDR, TABLE_END)
    {
      var address := index * PAGE;
      var value := Or(address, LeafFlags(IsUserPage(address)));
      PageOr(address, LeafFlags(IsUserPage(address)));
      r := WriteEntry(memory, PT_ADDR, index, value, LeafEntries(index));
      LeafEntriesStep(index);
    }
  }

  lemma LeafEntriesStep(index: nat)
    requires index < 512
    ensures SetEntry(LeafEntries(index), index, LeafEntry(index)) == LeafEntries(index + 1)
  {
    hide LeafEntry;
  }

  /** Writes GDT, the two gates and the TSS into zeroed pages. */
  method InstallDescriptors(memory: GuestMemory) returns (r: Result<(), MemoryError>)
    requires memory.Valid() && memory.region.base == 0 && TABLE_END <= memory.ram.Length
    requires forall j :: GDT_ADDR <= j < PT_ADDR ==> memory.Bytes()[j] == 0
    modifies memory.ram
    ensures r.Ok?
    ensures DescriptorsHold(memory.Bytes())
    ensures SameOutside(old(memory.Bytes()), memory.Bytes(), GDT_ADDR, PT_ADDR)
  {
    var gdt := GdtBytes();
    r := memory.Write(GDT_ADDR, gdt);
    assert memory.Bytes()[GDT_ADDR..GDT_ADDR + 56] == gdt;
    r := InstallUserGates(memory);
    ghost var gated := memory.Bytes();
    assert gated[GDT_ADDR..GDT_ADDR + 56] == gdt;
    var tss := TssBytes();
    r := memory.Write(TSS_ADDR, tss);
    assert memory.Bytes()[TSS_ADDR..TSS_ADDR + TSS_BYTES] == tss;
    assert memory.Bytes()[GDT_ADDR..GDT_ADDR + 56] == gdt;
    IdtFrame(gated, memory.Bytes(), IDT_ADDR, UserGates());
  }

  method InstallUserGates(memory: GuestMemory) returns (r: Result<(), MemoryError>)
    requires memory.Valid() && memory.region.base == 0 && TABLE_END <= memory.ram.Length
    requires forall j :: IDT_ADDR <= j < TSS_ADDR ==> memory.Bytes()[j] == 0
    modifies memory.ram
    ensures r.Ok?
    ensures IdtHolds(memory.Bytes(), IDT_ADDR, UserGates())
    ensures SameOutside(old(memory.Bytes()), memory.Bytes(), IDT_ADDR, TSS_ADDR)
  {
    EmptyIdt(memory.Bytes(), IDT_ADDR);
    r := WriteGate(memory, IDT_ADDR, RETURN_VECTOR, RETURN_HANDLER, KERNEL_CODE_SELECTOR, GATE_PRESENT_RING3,
                   NoGates());
    r := WriteGate(memory, IDT_ADDR, TERMINAL_VECTOR, TERMINAL_HANDLER, KERNEL_CODE_SELECTOR, GATE_PRESENT_RING3,
                   NoGates()[RETURN_VECTOR := Some(UserGate(RETURN_HANDLER))]);
  }
}
